/**
 The token tree of highlight.js and its emitter. Nodes that are still open are kept on a stack; a
 node joins its parent's children when it is closed (in the source it is there from the start,
 and is reached through both).
 */
module TokenTree {
  import opened Html

  datatype TokenNode =
    | Leaf(text: string)
    | Branch(kind: string, children: seq<TokenNode>)

  /** An open node. The root, at the bottom of the stack, has kind "". */
  datatype Frame = Frame(kind: string, children: seq<TokenNode>)

  // ---------- Specification ----------

  function TextOfNodes(nodes: seq<TokenNode>): string {
    if nodes == [] then "" else TextOfNodes(nodes[..|nodes| - 1]) + TextOfNode(nodes[|nodes| - 1])
  }

  function TextOfNode(node: TokenNode): string {
    match node
    case Leaf(text) => text
    case Branch(_, children) => TextOfNodes(children)
  }

  /** All text emitted so far, in order. */
  function TextOfFrames(frames: seq<Frame>): string {
    if frames == [] then "" else TextOfFrames(frames[..|frames| - 1]) + TextOfNodes(frames[|frames| - 1].children)
  }

  /** The kinds of the open nodes above the root. */
  function Kinds(frames: seq<Frame>): seq<string> {
    if |frames| <= 1 then [] else Kinds(frames[..|frames| - 1]) + [frames[|frames| - 1].kind]
  }

  function Added(frames: seq<Frame>, node: TokenNode): seq<Frame>
    requires frames != []
  {
    var top := frames[|frames| - 1];
    frames[..|frames| - 1] + [Frame(top.kind, top.children + [node])]
  }

  function TextAdded(frames: seq<Frame>, text: string): seq<Frame>
    requires frames != []
  {
    if text == "" then frames else Added(frames, Leaf(text))
  }

  function Opened(frames: seq<Frame>, kind: string): seq<Frame> {
    frames + [Frame(kind, [])]
  }

  function Closed(frames: seq<Frame>): seq<Frame>
    requires frames != []
  {
    if |frames| > 1 then
      var top := frames[|frames| - 1];
      Added(frames[..|frames| - 1], Branch(top.kind, top.children))
    else frames
  }

  function KeywordAdded(frames: seq<Frame>, text: string, kind: string): seq<Frame>
    requires frames != []
  {
    if text == "" then frames else Closed(TextAdded(Opened(frames, kind), text))
  }

  /** Close all but the root. */
  function AllClosed(frames: seq<Frame>): (r: seq<Frame>)
    requires frames != []
    ensures |r| == 1
    decreases |frames|
  {
    ClosedAppendsNothing(frames);
    if |frames| == 1 then frames else AllClosed(Closed(frames))
  }

  lemma TextOfNodesSnoc(nodes: seq<TokenNode>, node: TokenNode)
    ensures TextOfNodes(nodes + [node]) == TextOfNodes(nodes) + TextOfNode(node)
  {
    assert (nodes + [node])[..|nodes|] == nodes;
  }

  lemma TextOfFramesSnoc(frames: seq<Frame>, frame: Frame)
    ensures TextOfFrames(frames + [frame]) == TextOfFrames(frames) + TextOfNodes(frame.children)
  {
    assert (frames + [frame])[..|frames|] == frames;
  }

  lemma KindsSnoc(frames: seq<Frame>, frame: Frame)
    requires frames != []
    ensures Kinds(frames + [frame]) == Kinds(frames) + [frame.kind]
  {
    assert (frames + [frame])[..|frames|] == frames;
  }

  lemma AddedAppends(frames: seq<Frame>, node: TokenNode)
    requires frames != []
    ensures TextOfFrames(Added(frames, node)) == TextOfFrames(frames) + TextOfNode(node)
    ensures Kinds(Added(frames, node)) == Kinds(frames) && |Added(frames, node)| == |frames|
  {
    var below, top := frames[..|frames| - 1], frames[|frames| - 1];
    var grown := Frame(top.kind, top.children + [node]);
    TextOfFramesSnoc(below, grown);
    TextOfNodesSnoc(top.children, node);
    if below != [] {
      KindsSnoc(below, grown);
    }
  }

  lemma TextAddedAppends(frames: seq<Frame>, text: string)
    requires frames != []
    ensures TextOfFrames(TextAdded(frames, text)) == TextOfFrames(frames) + text
    ensures Kinds(TextAdded(frames, text)) == Kinds(frames) && |TextAdded(frames, text)| == |frames|
  {
    if text != "" {
      AddedAppends(frames, Leaf(text));
    }
  }

  lemma OpenedAppendsNothing(frames: seq<Frame>, kind: string)
    requires frames != []
    ensures TextOfFrames(Opened(frames, kind)) == TextOfFrames(frames)
    ensures Kinds(Opened(frames, kind)) == Kinds(frames) + [kind]
  {
    TextOfFramesSnoc(frames, Frame(kind, []));
    KindsSnoc(frames, Frame(kind, []));
  }

  /** Closing the innermost node keeps all text in place. */
  lemma ClosedAppendsNothing(frames: seq<Frame>)
    requires frames != []
    ensures TextOfFrames(Closed(frames)) == TextOfFrames(frames)
    ensures |frames| > 1 ==> Kinds(frames) != [] && Kinds(Closed(frames)) == Kinds(frames)[..|Kinds(frames)| - 1]
    ensures |Closed(frames)| == if |frames| > 1 then |frames| - 1 else 1
  {
    if |frames| > 1 {
      var below, top := frames[..|frames| - 1], frames[|frames| - 1];
      AddedAppends(below, Branch(top.kind, top.children));
      assert Kinds(frames) == Kinds(below) + [top.kind];
    }
  }

  lemma {:induction false} KeywordAddedAppends(frames: seq<Frame>, text: string, kind: string)
    requires frames != []
    ensures TextOfFrames(KeywordAdded(frames, text, kind)) == TextOfFrames(frames) + text
    ensures Kinds(KeywordAdded(frames, text, kind)) == Kinds(frames)
    ensures KeywordAdded(frames, text, kind) != []
  {
    if text != "" {
      OpenedAppendsNothing(frames, kind);
      TextAddedAppends(Opened(frames, kind), text);
      ClosedAppendsNothing(TextAdded(Opened(frames, kind), text));
      assert (Kinds(frames) + [kind])[..|Kinds(frames)|] == Kinds(frames);
    }
  }

  // ---------- What each character is in ----------

  /** A character of the text, and the kinds of the nodes it is in, the outermost first. */
  datatype Mark = Mark(c: char, nodes: seq<string>)

  function Marked(text: string, nodes: seq<string>): seq<Mark> {
    seq(|text|, i requires 0 <= i < |text| => Mark(text[i], nodes))
  }

  /** The characters of some nodes that are in the nodes `outer`. */
  function MarksOfNodes(nodes: seq<TokenNode>, outer: seq<string>): seq<Mark> {
    if nodes == [] then [] else MarksOfNodes(nodes[..|nodes| - 1], outer) + MarksOfNode(nodes[|nodes| - 1], outer)
  }

  function MarksOfNode(node: TokenNode, outer: seq<string>): seq<Mark> {
    match node
    case Leaf(text) => Marked(text, outer)
    case Branch(kind, children) => MarksOfNodes(children, outer + [kind])
  }

  /** The characters emitted so far: those of an open node are in it and in the open nodes around it. */
  function MarksOfFrames(frames: seq<Frame>): seq<Mark> {
    if frames == [] then []
    else MarksOfFrames(frames[..|frames| - 1]) + MarksOfNodes(frames[|frames| - 1].children, Kinds(frames))
  }

  lemma MarkedConcat(a: string, b: string, nodes: seq<string>)
    ensures Marked(a + b, nodes) == Marked(a, nodes) + Marked(b, nodes)
  {
  }

  lemma MarksOfFramesSnoc(frames: seq<Frame>, frame: Frame)
    ensures MarksOfFrames(frames + [frame]) == MarksOfFrames(frames) + MarksOfNodes(frame.children, Kinds(frames + [frame]))
  {
    assert (frames + [frame])[..|frames|] == frames;
  }

  lemma MarksOfNodesSnoc(nodes: seq<TokenNode>, node: TokenNode, outer: seq<string>)
    ensures MarksOfNodes(nodes + [node], outer) == MarksOfNodes(nodes, outer) + MarksOfNode(node, outer)
  {
    assert (nodes + [node])[..|nodes|] == nodes;
  }

  lemma MarksAssociate(a: seq<Mark>, b: seq<Mark>, c: seq<Mark>)
    ensures (a + b) + c == a + (b + c)
  {
  }

  lemma {:induction false} MarksOfNodesCons(nodes: seq<TokenNode>, outer: seq<string>)
    requires nodes != []
    ensures MarksOfNodes(nodes, outer) == MarksOfNode(nodes[0], outer) + MarksOfNodes(nodes[1..], outer)
  {
    if |nodes| == 1 {
      assert nodes[..0] == [] && nodes[1..] == [];
    } else {
      var init, rest := nodes[..|nodes| - 1], nodes[1..];
      MarksOfNodesCons(init, outer);
      assert rest[..|rest| - 1] == init[1..] && rest[|rest| - 1] == nodes[|nodes| - 1];
      MarksAssociate(MarksOfNode(nodes[0], outer), MarksOfNodes(init[1..], outer), MarksOfNode(nodes[|nodes| - 1], outer));
    }
  }

  /** A node that is added is in the open nodes, and everything before it stays where it is. */
  lemma AddedMarks(frames: seq<Frame>, node: TokenNode)
    requires frames != []
    ensures MarksOfFrames(Added(frames, node)) == MarksOfFrames(frames) + MarksOfNode(node, Kinds(frames))
  {
    var below, top := frames[..|frames| - 1], frames[|frames| - 1];
    var grown := Frame(top.kind, top.children + [node]);
    AddedAppends(frames, node);
    MarksOfFramesSnoc(below, grown);
    MarksOfNodesSnoc(top.children, node, Kinds(frames));
    MarksAssociate(MarksOfFrames(below), MarksOfNodes(top.children, Kinds(frames)), MarksOfNode(node, Kinds(frames)));
  }

  lemma TextAddedMarks(frames: seq<Frame>, text: string)
    requires frames != []
    ensures MarksOfFrames(TextAdded(frames, text)) == MarksOfFrames(frames) + Marked(text, Kinds(frames))
  {
    if text != "" {
      AddedMarks(frames, Leaf(text));
    }
  }

  lemma OpenedMarks(frames: seq<Frame>, kind: string)
    requires frames != []
    ensures MarksOfFrames(Opened(frames, kind)) == MarksOfFrames(frames)
  {
    MarksOfFramesSnoc(frames, Frame(kind, []));
  }

  /** Closing a node leaves every character in the nodes it was in. */
  lemma ClosedMarks(frames: seq<Frame>)
    requires frames != []
    ensures MarksOfFrames(Closed(frames)) == MarksOfFrames(frames)
  {
    if |frames| > 1 {
      var below, top := frames[..|frames| - 1], frames[|frames| - 1];
      AddedMarks(below, Branch(top.kind, top.children));
      assert Kinds(frames) == Kinds(below) + [top.kind];
    }
  }

  /** A keyword is in a node of its own in the open nodes. */
  lemma KeywordAddedMarks(frames: seq<Frame>, text: string, kind: string)
    requires frames != []
    ensures MarksOfFrames(KeywordAdded(frames, text, kind)) == MarksOfFrames(frames) + Marked(text, Kinds(frames) + [kind])
  {
    if text != "" {
      OpenedAppendsNothing(frames, kind);
      OpenedMarks(frames, kind);
      TextAddedMarks(Opened(frames, kind), text);
      ClosedMarks(TextAdded(Opened(frames, kind), text));
    }
  }

  lemma {:induction false} AllClosedMarks(frames: seq<Frame>)
    requires frames != []
    ensures MarksOfNodes(AllClosed(frames)[0].children, []) == MarksOfFrames(frames)
    decreases |frames|
  {
    if |frames| == 1 {
      assert frames[..0] == [];
    } else {
      ClosedAppendsNothing(frames);
      ClosedMarks(frames);
      AllClosedMarks(Closed(frames));
    }
  }

  // ---------- The emitter ----------

  class Emitter {
    var stack: seq<Frame>

    constructor ()
      ensures stack == [Frame("", [])]
    {
      stack := [Frame("", [])];
    }

    method Add(node: TokenNode)
      requires stack != []
      modifies this
      ensures stack == Added(old(stack), node)
    {
      var top := stack[|stack| - 1];
      stack := stack[..|stack| - 1] + [top.(children := top.children + [node])];
    }

    method OpenNode(kind: string)
      modifies this
      ensures stack == Opened(old(stack), kind)
    {
      stack := stack + [Frame(kind, [])];
    }

    method CloseNode() returns (closed: bool)
      requires stack != []
      modifies this
      ensures stack == Closed(old(stack)) && closed == (|old(stack)| > 1)
    {
      closed := |stack| > 1;
      if closed {
        var top := stack[|stack| - 1];
        stack := stack[..|stack| - 1];
        Add(Branch(top.kind, top.children));
      }
    }

    method AddText(text: string)
      requires stack != []
      modifies this
      ensures stack == TextAdded(old(stack), text)
    {
      if text != "" {
        Add(Leaf(text));
      }
    }

    method AddKeyword(text: string, kind: string)
      requires stack != []
      modifies this
      ensures stack == KeywordAdded(old(stack), text, kind)
    {
      if text != "" {
        OpenNode(kind);
        AddText(text);
        var _ := CloseNode();
      }
    }

    /** Only the root is left, and it holds all the text. */
    method CloseAllNodes()
      requires stack != []
      modifies this
      ensures stack == AllClosed(old(stack))
      ensures |stack| == 1 && TextOfNodes(stack[0].children) == TextOfFrames(old(stack))
    {
      var more := true;
      while more
        invariant stack != [] && TextOfFrames(stack) == TextOfFrames(old(stack)) && AllClosed(stack) == AllClosed(old(stack))
        invariant !more ==> |stack| == 1
        decreases |stack|, more
      {
        ClosedAppendsNothing(stack);
        more := CloseNode();
      }
      assert stack[..0] == [];
    }
  }

  // ---------- HTML ----------

  const SPAN_END := "</span>"

  function SpanStart(className: string): string {
    "<" + (("span class=\"" + className + "\"") + ">")
  }

  /** `toHTML`: the renderer's walk. */
  function ToHtml(nodes: seq<TokenNode>, prefix: string): string {
    if nodes == [] then "" else NodeToHtml(nodes[0], prefix) + ToHtml(nodes[1..], prefix)
  }

  function NodeToHtml(node: TokenNode, prefix: string): string {
    match node
    case Leaf(text) => Escape(text)
    case Branch(kind, children) =>
      if kind == "" then ToHtml(children, prefix)
      else SpanStart(prefix + kind) + (ToHtml(children, prefix) + SPAN_END)
  }

  /** The same as a document: what a browser makes of that HTML. */
  function ToDocument(nodes: seq<TokenNode>, prefix: string): seq<Node> {
    if nodes == [] then [] else NodeToDocument(nodes[0], prefix) + ToDocument(nodes[1..], prefix)
  }

  function NodeToDocument(node: TokenNode, prefix: string): seq<Node> {
    match node
    case Leaf(text) => [Text(text)]
    case Branch(kind, children) =>
      if kind == "" then ToDocument(children, prefix)
      else [Element(Tag("span", [Attribute("class", prefix + kind)]), ToDocument(children, prefix))]
  }

  predicate PlainKinds(nodes: seq<TokenNode>, prefix: string) {
    nodes == [] || (PlainKind(nodes[0], prefix) && PlainKinds(nodes[1..], prefix))
  }

  predicate PlainKind(node: TokenNode, prefix: string) {
    node.Branch? ==> NoAngles(prefix + node.kind) && PlainKinds(node.children, prefix)
  }

  lemma {:induction false} TextOfNodesCons(nodes: seq<TokenNode>)
    requires nodes != []
    ensures TextOfNodes(nodes) == TextOfNode(nodes[0]) + TextOfNodes(nodes[1..])
  {
    if |nodes| == 1 {
      assert nodes[..0] == [] && nodes[1..] == [];
    } else {
      var init, rest := nodes[..|nodes| - 1], nodes[1..];
      TextOfNodesCons(init);
      assert rest[..|rest| - 1] == init[1..] && rest[|rest| - 1] == nodes[|nodes| - 1];
    }
  }

  lemma FirstHtml(nodes: seq<TokenNode>, prefix: string, rest: string)
    requires nodes != []
    ensures ToHtml(nodes, prefix) + rest == NodeToHtml(nodes[0], prefix) + (ToHtml(nodes[1..], prefix) + rest)
  {
  }

  /** Without its tags, the HTML of a tree is its text, escaped. */
  lemma {:induction false} StripHtml(nodes: seq<TokenNode>, prefix: string, rest: string)
    requires PlainKinds(nodes, prefix)
    ensures Strip(ToHtml(nodes, prefix) + rest, false) == Escape(TextOfNodes(nodes)) + Strip(rest, false)
    decreases nodes, 1
  {
    if nodes == [] {
      EscapeIsEntities("");
      assert ToHtml(nodes, prefix) + rest == rest;
    } else {
      var later := ToHtml(nodes[1..], prefix) + rest;
      StripHtml(nodes[1..], prefix, rest);
      StripNodeHtml(nodes[0], prefix, later);
      FirstHtml(nodes, prefix, rest);
      TextOfNodesCons(nodes);
      EscapeConcat(TextOfNode(nodes[0]), TextOfNodes(nodes[1..]));
    }
  }

  lemma StripSpan(className: string, inner: string, rest: string)
    requires NoAngles(className)
    ensures Strip(SpanStart(className) + (inner + (SPAN_END + rest)), false) == Strip(inner + (SPAN_END + rest), false)
    ensures Strip(SPAN_END + rest, false) == Strip(rest, false)
  {
    StripTag("span class=\"" + className + "\"", inner + (SPAN_END + rest));
    StripTag("/span", rest);
    assert SPAN_END == "<" + ("/span" + ">");
  }

  lemma SpanText(start: string, inner: string, rest: string)
    ensures (start + (inner + SPAN_END)) + rest == start + (inner + (SPAN_END + rest))
  {
  }

  lemma {:induction false} StripNodeHtml(node: TokenNode, prefix: string, rest: string)
    requires PlainKind(node, prefix)
    ensures Strip(NodeToHtml(node, prefix) + rest, false) == Escape(TextOfNode(node)) + Strip(rest, false)
    decreases node, 0
  {
    match node {
      case Leaf(text) =>
        EscapeIsEntities(text);
        EntitiesHaveNoAngles(text);
        StripText(Escape(text), rest);
      case Branch(kind, children) =>
        if kind == "" {
          StripHtml(children, prefix, rest);
        } else {
          var inner := ToHtml(children, prefix);
          StripHtml(children, prefix, SPAN_END + rest);
          StripSpan(prefix + kind, inner, rest);
          SpanText(SpanStart(prefix + kind), inner, rest);
        }
    }
  }
}
