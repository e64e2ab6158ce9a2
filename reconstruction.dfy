/**
 * Route reconstruction: the best ordering is expanded into the node sequence
 * a vehicle drives, by concatenating one shortest path per leg of the closed
 * tour, each leg without its last node, and appending the depot once.
 */
module Reconstruction {
  import opened RoadGraph

  /** The graph library's "no path" exception for one leg, which aborts the reconstruction. */
  datatype RouteError = NoPath(origin: Node, target: Node)

  datatype Result<T> = Success(value: T) | Failure(error: RouteError)

  /** The node of every stop of the closed tour: depot, the customers in `tour` order, depot. */
  function Stops(nodos: seq<Node>, tour: seq<nat>): (s: seq<Node>)
    requires 0 < |nodos| && forall i :: 0 <= i < |tour| ==> tour[i] < |nodos|
  {
    [nodos[0]] + seq(|tour|, i requires 0 <= i < |tour| => nodos[tour[i]]) + [nodos[0]]
  }

  /** A path without its last node (`camino[:-1]`). */
  function AllButLast(c: seq<Node>): seq<Node> {
    if |c| == 0 then [] else c[..|c| - 1]
  }

  /**
   * The legs of `s` stitched together, each shortest path without its last
   * node; or the first leg, in tour order, that has no path.
   */
  function Stitched(g: Graph, s: seq<Node>): Result<seq<Node>>
    decreases |s|
  {
    if |s| < 2 then Success([])
    else match Stitched(g, s[..|s| - 1])
      case Failure(e) => Failure(e)
      case Success(r) =>
        match g.path(s[|s| - 2], s[|s| - 1])
        case None => Failure(NoPath(s[|s| - 2], s[|s| - 1]))
        case Some(c) => Success(r + AllButLast(c))
  }

  /** The full route through the stops `s`: the stitched legs followed by the last stop. */
  function Route(g: Graph, s: seq<Node>): Result<seq<Node>>
    requires 0 < |s|
  {
    match Stitched(g, s)
    case Failure(e) => Failure(e)
    case Success(r) => Success(r + [s[|s| - 1]])
  }

  /**
   * Expands the best ordering as the handler does: one shortest-path query per
   * leg, extending the route by the path without its last node, then the
   * closing depot. A leg without a path ends the reconstruction with an error.
   */
  method ReconstructRoute(g: Graph, nodos: seq<Node>, mejorRuta: seq<nat>) returns (res: Result<seq<Node>>)
    requires 0 < |nodos| && forall i :: 0 <= i < |mejorRuta| ==> mejorRuta[i] < |nodos|
    ensures res == Route(g, Stops(nodos, mejorRuta))
  {
    var secuencia := Stops(nodos, mejorRuta);
    var rutaFinal: seq<Node> := [];
    for k := 0 to |secuencia| - 1
      invariant Stitched(g, secuencia[..k + 1]) == Success(rutaFinal)
    {
      assert secuencia[..k + 2][..k + 1] == secuencia[..k + 1];
      match g.path(secuencia[k], secuencia[k + 1]) {
        case None =>
          StitchedFailurePersists(g, secuencia, k + 2);
          return Failure(NoPath(secuencia[k], secuencia[k + 1]));
        case Some(camino) =>
          rutaFinal := rutaFinal + AllButLast(camino);
      }
    }
    assert secuencia[..|secuencia|] == secuencia;
    rutaFinal := rutaFinal + [secuencia[|secuencia| - 1]];
    return Success(rutaFinal);
  }

  /** Once a prefix of the stops has a leg without a path, so has every longer prefix, with the same error. */
  lemma {:induction false} StitchedFailurePersists(g: Graph, s: seq<Node>, j: nat)
    requires 1 <= j <= |s| && Stitched(g, s[..j]).Failure?
    ensures Stitched(g, s) == Stitched(g, s[..j])
    decreases |s| - j
  {
    if j < |s| {
      var t := s[..|s| - 1];
      assert t[..j] == s[..j];
      StitchedFailurePersists(g, t, j);
    } else {
      assert s[..j] == s;
    }
  }

  /** The reconstruction succeeds exactly when every leg of the tour has a path. */
  lemma {:induction false} RouteSucceedsIff(g: Graph, s: seq<Node>)
    requires 0 < |s|
    ensures Route(g, s).Success? <==> forall k :: 0 <= k < |s| - 1 ==> g.path(s[k], s[k + 1]).Some?
    decreases |s|
  {
    if |s| >= 2 {
      var t := s[..|s| - 1];
      RouteSucceedsIff(g, t);
      assert forall k :: 0 <= k < |t| ==> t[k] == s[k];
    }
  }

  /**
   * On failure, the error names the first leg of the tour, in order, whose two
   * stops have no path between them.
   */
  lemma {:induction false} FailingLeg(g: Graph, s: seq<Node>) returns (k: nat)
    requires 0 < |s| && Route(g, s).Failure?
    ensures k + 1 < |s| && Route(g, s).error == NoPath(s[k], s[k + 1]) && g.path(s[k], s[k + 1]).None?
    ensures forall j :: 0 <= j < k ==> g.path(s[j], s[j + 1]).Some?
    decreases |s|
  {
    var t := s[..|s| - 1];
    if Stitched(g, t).Failure? {
      k := FailingLeg(g, t);
    } else {
      k := |s| - 2;
      RouteSucceedsIff(g, t);
    }
  }

  /** A leg's route is the previous stops' route without its last node, followed by the leg's path. */
  lemma RouteStep(g: Graph, s: seq<Node>)
    requires Valid(g) && 2 <= |s| && Route(g, s).Success?
    ensures Route(g, s[..|s| - 1]).Success? && g.path(s[|s| - 2], s[|s| - 1]).Some?
    ensures var before := Route(g, s[..|s| - 1]).value;
      Route(g, s).value == before[..|before| - 1] + g.path(s[|s| - 2], s[|s| - 1]).value
  {
    var c := g.path(s[|s| - 2], s[|s| - 1]).value;
    assert IsPath(c, s[|s| - 2], s[|s| - 1]);
    assert AllButLast(c) + [s[|s| - 1]] == c;
  }

  /** No two consecutive nodes of `r` are the same node. */
  predicate NoAdjacentRepeats(r: seq<Node>) {
    forall i :: 0 <= i < |r| - 1 ==> r[i] != r[i + 1]
  }

  /**
   * Replacing the last node of `before` by a path that starts at that node
   * keeps the first node, ends where the path ends, keeps every node of
   * `before`, and adds no repeated adjacent node.
   */
  lemma ExtendByPath(before: seq<Node>, c: seq<Node>)
    requires 0 < |before| && NoAdjacentRepeats(before)
    requires 0 < |c| && IsPath(c, before[|before| - 1], c[|c| - 1])
    ensures var r := before[..|before| - 1] + c;
      && r[0] == before[0] && r[|r| - 1] == c[|c| - 1]
      && (forall x :: x in before ==> x in r)
      && NoAdjacentRepeats(r)
  {
    var front := before[..|before| - 1];
    var r := front + c;
    assert before == front + [c[0]];
    forall i | 0 <= i < |r| - 1
      ensures r[i] != r[i + 1]
    {
      if i < |front| - 1 {
        assert r[i] == before[i] && r[i + 1] == before[i + 1];
      } else if i == |front| - 1 {
        assert r[i] == before[i] && r[i + 1] == c[0] == before[i + 1];
      } else {
        assert r[i] == c[i - |front|] && r[i + 1] == c[i - |front| + 1];
      }
    }
  }

  /**
   * A reconstructed route starts at the first stop and ends at the last,
   * passes through every stop, and never repeats a node twice in a row.
   */
  lemma {:induction false} RouteShape(g: Graph, s: seq<Node>)
    requires Valid(g) && 0 < |s| && Route(g, s).Success?
    ensures var r := Route(g, s).value;
      && 0 < |r| && r[0] == s[0] && r[|r| - 1] == s[|s| - 1]
      && (forall k :: 0 <= k < |s| ==> s[k] in r)
      && NoAdjacentRepeats(r)
    decreases |s|
  {
    if |s| >= 2 {
      var t := s[..|s| - 1];
      var before := Route(g, t).value;
      var c := g.path(s[|s| - 2], s[|s| - 1]).value;
      RouteStep(g, s);
      RouteShape(g, t);
      assert IsPath(c, s[|s| - 2], s[|s| - 1]);
      ExtendByPath(before, c);
      var r := Route(g, s).value;
      forall k | 0 <= k < |s|
        ensures s[k] in r
      {
        if k < |s| - 1 {
          assert s[k] == t[k];
        }
      }
    }
  }

  /** The total number of hops of the legs' shortest paths (each path's length minus one). */
  function Hops(g: Graph, s: seq<Node>): int
    requires forall k :: 0 <= k < |s| - 1 ==> g.path(s[k], s[k + 1]).Some?
    decreases |s|
  {
    if |s| < 2 then 0
    else Hops(g, s[..|s| - 1]) + |g.path(s[|s| - 2], s[|s| - 1]).value| - 1
  }

  /** Each leg contributes all its path's nodes but the last, and the final stop is added once. */
  lemma {:induction false} RouteLength(g: Graph, s: seq<Node>)
    requires Valid(g) && 0 < |s| && Route(g, s).Success?
    ensures forall k :: 0 <= k < |s| - 1 ==> g.path(s[k], s[k + 1]).Some?
    ensures |Route(g, s).value| == 1 + Hops(g, s)
    decreases |s|
  {
    RouteSucceedsIff(g, s);
    if |s| >= 2 {
      var t := s[..|s| - 1];
      RouteStep(g, s);
      RouteLength(g, t);
    }
  }
}
