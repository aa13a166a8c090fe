/**
 `highlightBlock`: the tokenizer's tree, read back as a document, merged with the original markup.
 */
module HighlightBlocks {
  import opened Html
  import opened HighlightDocuments
  import Streams = HighlightStreams
  import Tree = TokenTree
  import Tok = HighlightTokenizer
  import Placement = HighlightPlacement

  lemma {:induction false} TextOfConcat(a: seq<Node>, b: seq<Node>)
    ensures TextOf(a + b) == TextOf(a) + TextOf(b)
  {
    if a == [] {
      assert a + b == b;
    } else {
      assert (a + b)[1..] == a[1..] + b;
      TextOfConcat(a[1..], b);
    }
  }

  /** The document of a token tree has the tree's text. */
  lemma {:induction false} DocumentKeepsText(nodes: seq<Tree.TokenNode>, prefix: string)
    ensures TextOf(Tree.ToDocument(nodes, prefix)) == Tree.TextOfNodes(nodes)
    decreases nodes, 1
  {
    if nodes != [] {
      NodeDocumentKeepsText(nodes[0], prefix);
      DocumentKeepsText(nodes[1..], prefix);
      TextOfConcat(Tree.NodeToDocument(nodes[0], prefix), Tree.ToDocument(nodes[1..], prefix));
      Tree.TextOfNodesCons(nodes);
    }
  }

  lemma {:induction false} NodeDocumentKeepsText(node: Tree.TokenNode, prefix: string)
    ensures TextOf(Tree.NodeToDocument(node, prefix)) == Tree.TextOfNode(node)
    decreases node, 0
  {
    if node.Leaf? {
      OneNodeText(Text(node.text));
    } else {
      DocumentKeepsText(node.children, prefix);
      OneNodeText(Element(Tag("span", [Attribute("class", prefix + node.kind)]), Tree.ToDocument(node.children, prefix)));
    }
  }

  lemma OneNodeText(node: Node)
    ensures TextOf([node]) == TextOfNode(node)
  {
    assert [node][1..] == [] && TextOf([node][1..]) == "";
  }

  predicate SpansOnly(nodes: seq<Node>) {
    nodes == [] || (SpanOnly(nodes[0]) && SpansOnly(nodes[1..]))
  }

  predicate SpanOnly(node: Node) {
    node.Element? ==> node.tag.name == "span" && SpansOnly(node.children)
  }

  lemma {:induction false} SpansOnlyConcat(a: seq<Node>, b: seq<Node>)
    requires SpansOnly(a) && SpansOnly(b)
    ensures SpansOnly(a + b)
  {
    if a == [] {
      assert a + b == b;
    } else {
      assert (a + b)[1..] == a[1..] + b;
      SpansOnlyConcat(a[1..], b);
    }
  }

  lemma {:induction false} DocumentIsSpans(nodes: seq<Tree.TokenNode>, prefix: string)
    ensures SpansOnly(Tree.ToDocument(nodes, prefix))
    decreases nodes, 1
  {
    if nodes != [] {
      NodeDocumentIsSpans(nodes[0], prefix);
      DocumentIsSpans(nodes[1..], prefix);
      SpansOnlyConcat(Tree.NodeToDocument(nodes[0], prefix), Tree.ToDocument(nodes[1..], prefix));
    }
  }

  lemma {:induction false} NodeDocumentIsSpans(node: Tree.TokenNode, prefix: string)
    ensures SpansOnly(Tree.NodeToDocument(node, prefix))
    decreases node, 0
  {
    if node.Leaf? {
      OneSpan(Text(node.text));
    } else {
      DocumentIsSpans(node.children, prefix);
      OneSpan(Element(Tag("span", [Attribute("class", prefix + node.kind)]), Tree.ToDocument(node.children, prefix)));
    }
  }

  lemma OneSpan(node: Node)
    ensures SpansOnly([node]) <==> SpanOnly(node)
  {
    assert [node][1..] == [] && SpansOnly([node][1..]);
  }

  lemma {:induction false} ContainsNeedsFirst(s: string, part: string)
    requires part != "" && part[0] !in s
    ensures !Contains(s, part)
  {
    if s != "" {
      ContainsNeedsFirst(s[1..], part);
    }
  }

  lemma SpanIsNotVoid(tag: Tag)
    requires tag.name == "span"
    ensures !LooksVoid(tag) && !IsVoid(tag)
  {
    ContainsNeedsFirst(tag.name, "br");
    ContainsNeedsFirst(tag.name, "hr");
    ContainsNeedsFirst(tag.name, "img");
    ContainsNeedsFirst(tag.name, "input");
    NoVoidBeginsWithS(tag.name);
  }

  lemma NoVoidBeginsWithS(name: string)
    requires |name| == 4 && name[0] == 's'
    ensures name !in VOID_NAMES
  {
    forall i | 0 <= i < |VOID_NAMES| ensures VOID_NAMES[i] != name {
      assert |VOID_NAMES[i]| == 4 ==> VOID_NAMES[i][0] != 's';
    }
  }

  /** `nodeStream` reports the end of every span. */
  lemma {:induction false} SpansAreOrdinary(nodes: seq<Node>)
    requires SpansOnly(nodes)
    ensures Ordinary(nodes)
    decreases nodes, 1
  {
    if nodes != [] {
      SpanIsOrdinary(nodes[0]);
      SpansAreOrdinary(nodes[1..]);
    }
  }

  lemma {:induction false} SpanIsOrdinary(node: Node)
    requires SpanOnly(node)
    ensures OrdinaryNode(node)
    decreases node, 0
  {
    if node.Element? {
      SpanIsNotVoid(node.tag);
      SpansAreOrdinary(node.children);
    }
  }

  // ---------- What each character is in ----------

  /** The spans of nodes of these kinds. */
  function Spans(kinds: seq<string>, prefix: string): seq<Tag> {
    if kinds == [] then []
    else
      var kind := kinds[|kinds| - 1];
      Spans(kinds[..|kinds| - 1], prefix) + if kind != "" then [Tag("span", [Attribute("class", prefix + kind)])] else []
  }

  function InSpans(marks: seq<Tree.Mark>, prefix: string): seq<Streams.Marked> {
    seq(|marks|, i requires 0 <= i < |marks| => (marks[i].c, Spans(marks[i].nodes, prefix)))
  }

  lemma InSpansConcat(a: seq<Tree.Mark>, b: seq<Tree.Mark>, prefix: string)
    ensures InSpans(a + b, prefix) == InSpans(a, prefix) + InSpans(b, prefix)
  {
  }

  lemma {:induction false} VisibleConcat(a: seq<Node>, b: seq<Node>, open: seq<Tag>)
    ensures Visible(a + b, open) == Visible(a, open) + Visible(b, open)
  {
    if a == [] {
      assert a + b == b;
    } else {
      assert (a + b)[1..] == a[1..] + b;
      VisibleConcat(a[1..], b, open);
    }
  }

  lemma OneVisible(node: Node, open: seq<Tag>)
    ensures Visible([node], open) == VisibleNode(node, open)
  {
    assert [node][1..] == [] && Visible([node][1..], open) == [];
  }

  /** In the document of a token tree, every character is visible in the spans of the nodes it is in. */
  lemma {:induction false} DocumentMarks(nodes: seq<Tree.TokenNode>, prefix: string, outer: seq<string>)
    ensures Visible(Tree.ToDocument(nodes, prefix), Spans(outer, prefix)) == InSpans(Tree.MarksOfNodes(nodes, outer), prefix)
    decreases nodes, 1
  {
    if nodes != [] {
      NodeDocumentMarks(nodes[0], prefix, outer);
      DocumentMarks(nodes[1..], prefix, outer);
      VisibleConcat(Tree.NodeToDocument(nodes[0], prefix), Tree.ToDocument(nodes[1..], prefix), Spans(outer, prefix));
      Tree.MarksOfNodesCons(nodes, outer);
      InSpansConcat(Tree.MarksOfNode(nodes[0], outer), Tree.MarksOfNodes(nodes[1..], outer), prefix);
    }
  }

  lemma OneMoreSpan(kinds: seq<string>, kind: string, prefix: string)
    ensures Spans(kinds + [kind], prefix) ==
            if kind != "" then Spans(kinds, prefix) + [Tag("span", [Attribute("class", prefix + kind)])] else Spans(kinds, prefix)
  {
    assert (kinds + [kind])[..|kinds|] == kinds;
  }

  lemma {:induction false} NodeDocumentMarks(node: Tree.TokenNode, prefix: string, outer: seq<string>)
    ensures Visible(Tree.NodeToDocument(node, prefix), Spans(outer, prefix)) == InSpans(Tree.MarksOfNode(node, outer), prefix)
    decreases node, 0
  {
    var open := Spans(outer, prefix);
    if node.Leaf? {
      OneVisible(Text(node.text), open);
    } else {
      DocumentMarks(node.children, prefix, outer + [node.kind]);
      OneMoreSpan(outer, node.kind, prefix);
      if node.kind != "" {
        var tag := Tag("span", [Attribute("class", prefix + node.kind)]);
        SpanIsNotVoid(tag);
        OneVisible(Element(tag, Tree.ToDocument(node.children, prefix)), open);
      }
    }
  }

  // ---------- The document and its markup ----------

  /** The tokens of a document, as a browser writes them. */
  function DocumentTokens(nodes: seq<Node>): seq<Token> {
    if nodes == [] then [] else NodeTokens(nodes[0]) + DocumentTokens(nodes[1..])
  }

  function NodeTokens(node: Node): seq<Token> {
    match node
    case Text(text) => [Chars(text)]
    case Element(tag, children) => [Open(tag)] + (DocumentTokens(children) + [Close(tag)])
    case OtherNode => []
  }

  /** Class names without characters that are escaped in attributes. */
  predicate UnescapedKinds(nodes: seq<Tree.TokenNode>, prefix: string) {
    nodes == [] || (UnescapedKind(nodes[0], prefix) && UnescapedKinds(nodes[1..], prefix))
  }

  predicate UnescapedKind(node: Tree.TokenNode, prefix: string) {
    node.Branch? ==> Escape(prefix + node.kind) == prefix + node.kind && UnescapedKinds(node.children, prefix)
  }

  lemma {:induction false} DocumentTokensConcat(a: seq<Node>, b: seq<Node>)
    ensures DocumentTokens(a + b) == DocumentTokens(a) + DocumentTokens(b)
  {
    if a == [] {
      assert a + b == b;
    } else {
      assert (a + b)[1..] == a[1..] + b;
      DocumentTokensConcat(a[1..], b);
    }
  }

  lemma OneNodeTokens(node: Node)
    ensures DocumentTokens([node]) == NodeTokens(node)
  {
    assert [node][1..] == [] && DocumentTokens([node][1..]) == [];
  }

  lemma OneRendered(t: Token)
    ensures Render([t]) == RenderToken(t)
  {
    assert [t][1..] == [] && Render([t][1..]) == "";
  }

  lemma ElementRendered(tag: Tag, children: seq<Node>)
    ensures Render(NodeTokens(Element(tag, children))) ==
            RenderToken(Open(tag)) + (Render(DocumentTokens(children)) + RenderToken(Close(tag)))
  {
    RenderConcat(DocumentTokens(children), [Close(tag)]);
    RenderConcat([Open(tag)], DocumentTokens(children) + [Close(tag)]);
    OneRendered(Open(tag));
    OneRendered(Close(tag));
  }

  lemma SpanRendered(className: string)
    requires Escape(className) == className
    ensures var tag := Tag("span", [Attribute("class", className)]);
            RenderToken(Open(tag)) == Tree.SpanStart(className) && RenderToken(Close(tag)) == Tree.SPAN_END
  {
    var attributes := [Attribute("class", className)];
    assert attributes[1..] == [] && RenderAttributes(attributes[1..]) == "";
    assert RenderAttributes(attributes) == " class=\"" + className + "\"";
    assert "span" + RenderAttributes(attributes) == "span class=\"" + className + "\"";
    assert "/" + "span" == "/span";
  }

  /** The document of a token tree is the one that its HTML stands for. */
  lemma {:induction false} DocumentIsHtml(nodes: seq<Tree.TokenNode>, prefix: string)
    requires UnescapedKinds(nodes, prefix)
    ensures Render(DocumentTokens(Tree.ToDocument(nodes, prefix))) == Tree.ToHtml(nodes, prefix)
    decreases nodes, 1
  {
    if nodes != [] {
      var first, rest := Tree.NodeToDocument(nodes[0], prefix), Tree.ToDocument(nodes[1..], prefix);
      NodeDocumentIsHtml(nodes[0], prefix);
      DocumentIsHtml(nodes[1..], prefix);
      DocumentTokensConcat(first, rest);
      RenderConcat(DocumentTokens(first), DocumentTokens(rest));
    }
  }

  lemma {:induction false} NodeDocumentIsHtml(node: Tree.TokenNode, prefix: string)
    requires UnescapedKind(node, prefix)
    ensures Render(DocumentTokens(Tree.NodeToDocument(node, prefix))) == Tree.NodeToHtml(node, prefix)
    decreases node, 0
  {
    if node.Leaf? {
      OneNodeTokens(Text(node.text));
      OneRendered(Chars(node.text));
    } else {
      DocumentIsHtml(node.children, prefix);
      if node.kind != "" {
        var tag, children := Tag("span", [Attribute("class", prefix + node.kind)]), Tree.ToDocument(node.children, prefix);
        OneNodeTokens(Element(tag, children));
        ElementRendered(tag, children);
        SpanRendered(prefix + node.kind);
      }
    }
  }

  // ---------- End to end ----------

  /** What the highlighter made of the text, as a document. */
  function ResultDocument(r: Tok.Outcome, code: string, prefix: string): (document: seq<Node>)
    requires r.Highlighted? || r.Unhighlighted?
    requires r.Highlighted? ==> Tree.TextOfNodes(r.tree) == code
    ensures TextOf(document) == code && Ordinary(document)
  {
    if r.Highlighted? then
      DocumentKeepsText(r.tree, prefix);
      DocumentIsSpans(r.tree, prefix);
      SpansAreOrdinary(Tree.ToDocument(r.tree, prefix));
      Tree.ToDocument(r.tree, prefix)
    else
      OneNodeText(Text(code));
      OneSpan(Text(code));
      SpansAreOrdinary([Text(code)]);
      [Text(code)]
  }

  /** Highlighting an element that holds markup: if every element that `nodeStream` leaves without an end
      is void, and no void element holds text, every character of its text comes out under exactly the
      elements it was under and, inside them, the spans of the token tree over it; and not otherwise. */
  method HighlightElement(c: Tok.Config, language: Tok.Mode, prefix: string, block: seq<Node>, limit: nat)
    returns (r: Tok.Outcome, html: string)
    requires c.code == TextOf(block)
    requires c.oracle.Valid(c.code) && Tok.GoodLanguage(c) && Tok.GoodMode(language)
    ensures r.Highlighted? ==> Tree.TextOfNodes(r.tree) == TextOf(block)
    ensures r.Highlighted? ==>
              exists n :: Tok.Finishes(c, Placement.Initial(language), n) &&
                          r.tree == Tok.FinishedTree(c, Tok.Rounds(c, Placement.Initial(language), n).state)
    ensures r.Highlighted? || r.Unhighlighted? ==>
              var document := ResultDocument(r, c.code, prefix);
              && html == (if Events(block, 0) == [] then r.html else Render(MarkupTokens(block, document)))
              && (Combines(MarkupTokens(block, document), block, document) <==> Ended(block) && VoidsEmpty(block))
  {
    var highlighter := new Tok.Highlighter(language);
    assert Tok.Keeps(c, highlighter.View()) by {
      assert highlighter.View().modes[..0] == [];
      assert [Tree.Frame("", [])][..0] == [];
    }
    ghost var start := highlighter.View();
    assert start == Placement.Initial(language);
    r := highlighter.Highlight(c, prefix, limit);
    html := "";
    if r.Highlighted? || r.Unhighlighted? {
      var document := ResultDocument(r, c.code, prefix);
      CombinesExactly(block, document);
      html := HighlightBlock(block, r.html, document);
    }
  }
}
