/**
 * The road network as the optimiser sees it: an oracle answering the two
 * shortest-path queries the route handler makes on the graph (a directed,
 * weighted street graph; one-way streets make it asymmetric).
 */
module RoadGraph {

  /** A node identifier of the street graph. */
  type Node = int

  datatype Option<T> = None | Some(value: T)

  /**
   * `length(o, d)` is the directed shortest-path length from `o` to `d` by
   * edge length; `path(o, d)` is the node sequence of one such shortest path.
   * `None` stands for the "no path" exception of the graph library.
   */
  datatype Graph = Graph(length: (Node, Node) -> Option<nat>, path: (Node, Node) -> Option<seq<Node>>)

  /** `p` is a simple path from `o` to `d`: it starts at `o`, ends at `d` and repeats no node. */
  predicate IsPath(p: seq<Node>, o: Node, d: Node) {
    && |p| >= 1
    && p[0] == o
    && p[|p| - 1] == d
    && forall i, j :: 0 <= i < j < |p| ==> p[i] != p[j]
  }

  /**
   * What the graph library promises of its answers: the two queries agree on
   * reachability, a returned path is a simple path between the two nodes, and
   * the path from a node to itself is that node alone.
   */
  ghost predicate Valid(g: Graph) {
    && (forall o, d :: g.length(o, d).Some? <==> g.path(o, d).Some?)
    && (forall o, d :: g.path(o, d).Some? ==> IsPath(g.path(o, d).value, o, d))
    && (forall o :: g.path(o, o) == Some([o]))
  }
}
