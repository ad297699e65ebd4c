/** The weighted, directed relation edges that every graph signal is computed from. */
module RelationGraph {
  type Node = string
  type Weight = w: real | 0.0 <= w witness 0.0

  /** `weight` stands for the edge's effective weight, an arbitrary non-negative real. */
  datatype Edge = Edge(source: Node, target: Node, weight: Weight)
}
