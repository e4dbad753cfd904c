/** `visualize_knowledge_graph` of src/graph_builder.py: each node and edge of
    the knowledge graph becomes a styled record for the graph widget, the
    widget renders HTML, and a fullscreen block is inserted before every
    `</body>`. The widget itself (storage of nodes and edges, physics,
    `generate_html`) is the parameter `render`. */
module GraphBuilder {
  import opened Wrappers
  import opened Strings
  import opened Replace
  import opened Knowledge

  const CoreColor := "#FFD700"
  const PlainColor := "#97C2FC"
  const CoreSize: nat := 25
  const PlainSize: nat := 15
  const NodeShape := "dot"
  const EdgeColor := "#555555"

  /** The arguments of one `add_node` call. */
  datatype StyledNode = StyledNode(id: string, name: string, color: string, size: nat, shape: string, title: string)

  /** The arguments of one `add_edge` call. */
  datatype StyledEdge = StyledEdge(source: string, target: string, title: string, color: string)

  /** The `add_node` and `add_edge` calls, in the order they are made. */
  datatype Network = Network(nodes: seq<StyledNode>, edges: seq<StyledEdge>)

  /** Core concepts are gold and large, every other node (also one without a
      `type`) blue and small; all are dots titled with their id. */
  function StyleNode(n: Node): (s: StyledNode)
    ensures s.id == n.id && s.name == n.name && s.title == n.id && s.shape == NodeShape
    ensures s.color == CoreColor <==> IsCore(n)
    ensures s.size == CoreSize <==> IsCore(n)
    ensures s.color == CoreColor || s.color == PlainColor
    ensures s.size == CoreSize || s.size == PlainSize
  {
    if IsCore(n) then StyledNode(n.id, n.name, CoreColor, CoreSize, NodeShape, n.id)
    else StyledNode(n.id, n.name, PlainColor, PlainSize, NodeShape, n.id)
  }

  /** An edge keeps its endpoints, shows its label on hover and is grey. */
  function StyleEdge(e: Edge): (s: StyledEdge)
    ensures s.source == e.source && s.target == e.target
    ensures s.title == e.relation && s.color == EdgeColor
  {
    StyledEdge(e.source, e.target, e.relation, EdgeColor)
  }

  /** The node loop: one record per input node, in input order. */
  function StyleNodes(nodes: seq<Node>): (r: seq<StyledNode>)
    ensures |r| == |nodes|
    ensures forall i :: 0 <= i < |nodes| ==> r[i] == StyleNode(nodes[i])
    decreases |nodes|
  {
    if |nodes| == 0 then [] else [StyleNode(nodes[0])] + StyleNodes(nodes[1..])
  }

  /** The edge loop: one record per input edge, in input order, none dropped
      or checked against the node ids. */
  function StyleEdges(edges: seq<Edge>): (r: seq<StyledEdge>)
    ensures |r| == |edges|
    ensures forall i :: 0 <= i < |edges| ==> r[i] == StyleEdge(edges[i])
    decreases |edges|
  {
    if |edges| == 0 then [] else [StyleEdge(edges[0])] + StyleEdges(edges[1..])
  }

  function BuildNetwork(g: Graph): (net: Network)
    ensures |net.nodes| == |g.nodes| && |net.edges| == |g.edges|
    ensures forall i :: 0 <= i < |g.nodes| ==> net.nodes[i] == StyleNode(g.nodes[i])
    ensures forall i :: 0 <= i < |g.edges| ==> net.edges[i] == StyleEdge(g.edges[i])
  {
    Network(StyleNodes(g.nodes), StyleEdges(g.edges))
  }

  /** Styling keeps exactly the id, the label and whether the node is core:
      two nodes get the same record if and only if those three agree. */
  lemma StyleNodeKeepsExactly(a: Node, b: Node)
    ensures StyleNode(a) == StyleNode(b) <==> a.id == b.id && a.name == b.name && (IsCore(a) <==> IsCore(b))
  {
  }

  /** A node without `type` is styled like a node of any non-core type. */
  lemma MissingTypeIsPlain(n: Node, other: string)
    requires n.kind.None? && other != CoreKind
    ensures StyleNode(n) == StyleNode(n.(kind := Some(other)))
    ensures StyleNode(n).color == PlainColor && StyleNode(n).size == PlainSize
  {
  }

  // ---------------------------------------------------------------------------
  // HTML post-processing

  const BodyClose := "</body>"
  const ErrorOpen := "<div>Error generating graph: "
  const ErrorClose := "</div>"

  /** `html_string.replace("</body>", f"{fullscreen_code}</body>")`. The
      fullscreen style, button and script text is the parameter `code`. */
  function InjectFullscreen(html: string, code: string): (r: string)
    ensures |r| == |html| + Count(html, BodyClose) * |code|
    ensures !Occurs(html, BodyClose) ==> r == html
    ensures Count(html, BodyClose) == 0 <==> !Occurs(html, BodyClose)
  {
    InjectionSize(html, code);
    ReplaceAll(html, BodyClose, code + BodyClose)
  }

  /** The size facts behind `InjectFullscreen`: one block per `</body>`, and
      no change when there is none. */
  lemma InjectionSize(html: string, code: string)
    ensures |ReplaceAll(html, BodyClose, code + BodyClose)| == |html| + Count(html, BodyClose) * |code|
    ensures !Occurs(html, BodyClose) ==> ReplaceAll(html, BodyClose, code + BodyClose) == html
    ensures Count(html, BodyClose) == 0 <==> !Occurs(html, BodyClose)
  {
    ReplaceLength(html, BodyClose, code + BodyClose);
    CountZeroIffAbsent(html, BodyClose);
    if !Occurs(html, BodyClose) {
      ReplaceAbsent(html, BodyClose, code + BodyClose);
    }
  }

  /** Injection only inserts: cut the page at its `</body>` tags and the result
      is those pieces, unchanged and in order, with `code + "</body>"` between
      neighbours, while the original is the same pieces with `"</body>"`
      between them. No piece still holds a `</body>`, so every tag gets the
      block. Removing each inserted `code` therefore gives the
      original back. */
  lemma InjectionOnlyInserts(html: string, code: string)
    ensures var pieces := Split(html, BodyClose);
            && |pieces| == Count(html, BodyClose) + 1
            && InjectFullscreen(html, code) == Join(pieces, code + BodyClose)
            && Join(pieces, BodyClose) == html
            && forall i :: 0 <= i < |pieces| ==> !Occurs(pieces[i], BodyClose)
  {
    SplitPiecesFree(html, BodyClose);
    SplitCount(html, BodyClose);
    ReplaceIsSplitJoin(html, BodyClose, code + BodyClose);
    SplitJoinRoundTrip(html, BodyClose);
  }

  /** `visualize_knowledge_graph`: the widget's rendering of the styled
      network with the fullscreen block injected, or, when rendering raises,
      an inline error message in place of the graph. */
  function VisualizeKnowledgeGraph(g: Graph, render: Network -> Result<string>, code: string): (r: string)
    ensures render(BuildNetwork(g)).Ok? ==> r == InjectFullscreen(render(BuildNetwork(g)).value, code)
    ensures render(BuildNetwork(g)).Raised? ==>
              && |r| == |ErrorOpen| + |render(BuildNetwork(g)).message| + |ErrorClose|
              && r[..|ErrorOpen|] == ErrorOpen
              && r[|ErrorOpen|..|r| - |ErrorClose|] == render(BuildNetwork(g)).message
              && r[|r| - |ErrorClose|..] == ErrorClose
  {
    match render(BuildNetwork(g))
    case Ok(html) => InjectFullscreen(html, code)
    case Raised(message) => ErrorOpen + message + ErrorClose
  }
}
