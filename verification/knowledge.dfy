/** The knowledge-graph and quiz data the study guide and the graph view read.
    Only the keys the code looks up are kept; a key the code reads with
    `.get` may be absent and is an `Option`. */
module Knowledge {
  import opened Wrappers

  /** A concept node: its `id`, its display text (the `label` key, here
      `name` because `label` is a Dafny keyword), and the optional `type`. */
  datatype Node = Node(id: string, name: string, kind: Option<string>)

  /** A relation: `source` and `target` node ids and its `label` text. */
  datatype Edge = Edge(source: string, target: string, relation: string)

  datatype Graph = Graph(nodes: seq<Node>, edges: seq<Edge>)

  /** A quiz question with its options, in order, and its answer text. */
  datatype QuizItem = QuizItem(question: string, options: seq<string>, answer: string)

  const CoreKind := "core"

  /** `node.get('type') == 'core'`: a missing `type` is not core. */
  predicate IsCore(n: Node)
  {
    n.kind == Some(CoreKind)
  }
}
