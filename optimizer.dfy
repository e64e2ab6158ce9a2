/**
 * The "optimise route" request end to end: resolve nothing (the stop nodes
 * are given), build the distance matrix, evolve the orderings, and expand the
 * best one into a drivable route.
 */
module Optimizer {
  import opened RoadGraph
  import opened DistanceMatrix
  import opened TourCost
  import opened Population
  import opened Reconstruction

  /** Stop `i` of the closed tour is the node of the matrix index at position `i` of that tour. */
  lemma StopsFollowTour(m: Matrix, nodos: seq<Node>, best: Individual, i: nat)
    requires |m| == |nodos| && Square(m) && 2 <= |nodos| && IsTour(best, |nodos|) && i < |best| + 2
    ensures Stops(nodos, best)[i] == nodos[ClosedTour(m, best)[i]]
  {
    var t := ClosedTour(m, best);
    assert t == [0] + best + [0];
    if 0 < i <= |best| {
      assert t[i] == best[i - 1];
    }
  }

  /**
   * If the route cannot be rebuilt, the reported distance counts at least one
   * sentinel: a leg without a path is a leg between distinct nodes that the
   * matrix recorded as unreachable.
   */
  lemma UnbuildableRouteCostsSentinel(g: Graph, nodos: seq<Node>, best: Individual)
    requires Valid(g) && 2 <= |nodos| && IsTour(best, |nodos|)
    requires Route(g, Stops(nodos, best)).Failure?
    ensures Fitness(DistanceTable(g, nodos), best) >= SENTINEL
  {
    var m := DistanceTable(g, nodos);
    var s := Stops(nodos, best);
    var k := FailingLeg(g, s);
    var t := ClosedTour(m, best);
    StopsFollowTour(m, nodos, best, k);
    StopsFollowTour(m, nodos, best, k + 1);
    assert s[k] != s[k + 1];
    assert m[t[k]][t[k + 1]] == Entry(g, s[k], s[k + 1]) == SENTINEL;
    SentinelLegDominates(m, best, k);
  }

  /** The population after the 150 generations of a request, scored against its distance matrix. */
  ghost function FinalPopulation(g: Graph, nodos: seq<Node>, picks: seq<seq<nat>>, gens: seq<seq<Draw>>): (last: seq<Individual>)
    requires 2 <= |nodos|
    requires |picks| == POPULATION && forall k :: 0 <= k < |picks| ==> ValidPicks(picks[k], |nodos| - 1)
    requires ValidSchedule(gens, |nodos| - 1)
    ensures |last| == POPULATION && AllScorable(DistanceTable(g, nodos), last)
  {
    var m := DistanceTable(g, nodos);
    var init := InitialPopulation(|nodos|, picks);
    assert Tours(m, init);
    var last := Run(m, init, gens);
    ToursAreScorable(m, last);
    last
  }

  /**
   * The whole request: the best ordering found and its distance, and the
   * route through the road graph or the leg that has no path. The generator's
   * draws are given: `picks` for the 50 initial samples, `gens` for the 150
   * generations.
   */
  method OptimizeRoute(g: Graph, nodos: seq<Node>, picks: seq<seq<nat>>, gens: seq<seq<Draw>>)
    returns (mejorRuta: Individual, distTotal: nat, ruta: Result<seq<Node>>)
    requires 2 <= |nodos|
    requires |picks| == POPULATION && forall k :: 0 <= k < |picks| ==> ValidPicks(picks[k], |nodos| - 1)
    requires |gens| == GENERATIONS && ValidSchedule(gens, |nodos| - 1)
    ensures IsTour(mejorRuta, |nodos|)
    ensures distTotal == Fitness(DistanceTable(g, nodos), mejorRuta)
    ensures mejorRuta in FinalPopulation(g, nodos, picks, gens)
    ensures forall j :: 0 <= j < POPULATION ==>
              distTotal <= Fitness(DistanceTable(g, nodos), FinalPopulation(g, nodos, picks, gens)[j])
    ensures exists k :: 0 <= k < POPULATION && mejorRuta == FinalPopulation(g, nodos, picks, gens)[k]
                        && forall j :: 0 <= j < k ==> distTotal < Fitness(DistanceTable(g, nodos), FinalPopulation(g, nodos, picks, gens)[j])
    ensures distTotal <= MinFitness(DistanceTable(g, nodos), InitialPopulation(|nodos|, picks))
    ensures |nodos| == 2 ==> mejorRuta == [1] && distTotal == DistanceTable(g, nodos)[0][1] + DistanceTable(g, nodos)[1][0]
    ensures ruta == Route(g, Stops(nodos, mejorRuta))
    ensures Valid(g) && ruta.Success? ==>
              && 0 < |ruta.value|
              && ruta.value[0] == nodos[0] && ruta.value[|ruta.value| - 1] == nodos[0]
              && NoAdjacentRepeats(ruta.value)
    ensures Valid(g) && distTotal < SENTINEL ==> ruta.Success?
  {
    var matriz := BuildMatrix(g, nodos);
    var poblacion := InitialPopulation(|nodos|, picks);
    assert Tours(matriz, poblacion);
    mejorRuta, distTotal := Evolve(matriz, poblacion, gens);
    assert Run(matriz, poblacion, gens) == FinalPopulation(g, nodos, picks, gens);
    ruta := ReconstructRoute(g, nodos, mejorRuta);
    if |nodos| == 2 {
      SingleCustomer(matriz, mejorRuta);
    }
    RouteGuarantees(g, nodos, mejorRuta);
  }

  /** What the graph library's promises give the reconstructed route of a tour. */
  lemma RouteGuarantees(g: Graph, nodos: seq<Node>, best: Individual)
    requires 2 <= |nodos| && IsTour(best, |nodos|)
    ensures var ruta := Route(g, Stops(nodos, best));
      && (Valid(g) && ruta.Success? ==>
            && 0 < |ruta.value|
            && ruta.value[0] == nodos[0] && ruta.value[|ruta.value| - 1] == nodos[0]
            && NoAdjacentRepeats(ruta.value))
      && (Valid(g) && Fitness(DistanceTable(g, nodos), best) < SENTINEL ==> ruta.Success?)
  {
    if Valid(g) {
      if Route(g, Stops(nodos, best)).Success? {
        RouteShape(g, Stops(nodos, best));
      } else {
        UnbuildableRouteCostsSentinel(g, nodos, best);
      }
    }
  }
}
