/**
 * The N x N table of directed shortest-path lengths between the selected
 * stops (index 0 is the depot), built once per optimisation request.
 */
module DistanceMatrix {
  import opened RoadGraph

  /** The cost recorded for a pair that has no path, instead of an error. */
  const SENTINEL: nat := 999999

  type Matrix = seq<seq<nat>>

  /** Every row has as many entries as there are rows. */
  predicate Square(m: Matrix) {
    forall i :: 0 <= i < |m| ==> |m[i]| == |m|
  }

  /**
   * The cost stored for origin node `o` and destination node `d`: zero when
   * the two nodes coincide (no query is made), the shortest-path length when
   * one exists, and the sentinel when the library reports no path.
   */
  function Entry(g: Graph, o: Node, d: Node): nat {
    if o == d then 0
    else match g.length(o, d)
      case Some(c) => c
      case None => SENTINEL
  }

  /** The matrix for stop nodes `nodos`: row `i`, column `j` is the cost from `nodos[i]` to `nodos[j]`. */
  function DistanceTable(g: Graph, nodos: seq<Node>): (m: Matrix)
    ensures |m| == |nodos| && Square(m)
  {
    seq(|nodos|, i requires 0 <= i < |nodos| =>
      seq(|nodos|, j requires 0 <= j < |nodos| => Entry(g, nodos[i], nodos[j])))
  }

  /**
   * Builds the matrix row by row, appending one entry per destination to the
   * current row and each finished row to the matrix.
   */
  method BuildMatrix(g: Graph, nodos: seq<Node>) returns (matriz: Matrix)
    ensures |matriz| == |nodos| && Square(matriz)
    ensures forall i, j :: 0 <= i < |nodos| && 0 <= j < |nodos| && nodos[i] == nodos[j] ==> matriz[i][j] == 0
    ensures forall i, j :: 0 <= i < |nodos| && 0 <= j < |nodos| && nodos[i] != nodos[j] ==>
              matriz[i][j] == (if g.length(nodos[i], nodos[j]).Some? then g.length(nodos[i], nodos[j]).value else SENTINEL)
    ensures matriz == DistanceTable(g, nodos)
  {
    matriz := [];
    for i := 0 to |nodos|
      invariant |matriz| == i
      invariant forall r :: 0 <= r < i ==> matriz[r] == DistanceTable(g, nodos)[r]
    {
      var o := nodos[i];
      var fila: seq<nat> := [];
      for j := 0 to |nodos|
        invariant fila == DistanceTable(g, nodos)[i][..j]
      {
        var d := nodos[j];
        var dist: nat;
        if o != d {
          match g.length(o, d) {
            case Some(c) => dist := c;
            case None => dist := SENTINEL;
          }
        } else {
          dist := 0;
        }
        fila := fila + [dist];
      }
      matriz := matriz + [fila];
    }
  }

  /**
   * When every real shortest-path length is below the sentinel, an entry
   * between two distinct nodes is the sentinel exactly when the pair is
   * unreachable; otherwise unreachable and "very far" cannot be told apart.
   */
  lemma SentinelIffUnreachable(g: Graph, nodos: seq<Node>, i: nat, j: nat)
    requires i < |nodos| && j < |nodos|
    requires forall o, d :: g.length(o, d).Some? ==> g.length(o, d).value < SENTINEL
    ensures DistanceTable(g, nodos)[i][j] == SENTINEL <==> nodos[i] != nodos[j] && g.length(nodos[i], nodos[j]).None?
  {
  }
}
