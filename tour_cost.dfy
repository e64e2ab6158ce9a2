/**
 * The fitness of an ordering of the customers: the length of the closed tour
 * depot -> r[0] -> ... -> r[|r|-1] -> depot, read from the distance matrix.
 * Lower is better.
 */
module TourCost {
  import opened DistanceMatrix

  /** `s` only holds stop indices of `m`. */
  predicate InRange(m: Matrix, s: seq<nat>) {
    forall i :: 0 <= i < |s| ==> s[i] < |m|
  }

  /** A non-empty ordering that can be scored against `m`. */
  predicate Scorable(m: Matrix, r: seq<nat>) {
    Square(m) && 0 < |r| && InRange(m, r)
  }

  /** Every member of `pop` can be scored against `m`. */
  predicate AllScorable(m: Matrix, pop: seq<seq<nat>>) {
    forall k :: 0 <= k < |pop| ==> Scorable(m, pop[k])
  }

  /** The stop sequence of the closed tour: the depot, the customers in order, the depot again. */
  function ClosedTour(m: Matrix, r: seq<nat>): (t: seq<nat>)
    requires Scorable(m, r)
    ensures |t| == |r| + 2 && t[0] == 0 && t[|t| - 1] == 0 && t[1..|t| - 1] == r
    ensures InRange(m, t)
  {
    assert r[0] < |m|;
    [0] + r + [0]
  }

  /** The sum of `m[s[k]][s[k+1]]` over every consecutive pair of stops in `s`. */
  function LegSum(m: Matrix, s: seq<nat>): nat
    requires Square(m) && InRange(m, s)
  {
    if |s| < 2 then 0 else LegSum(m, s[..|s| - 1]) + m[s[|s| - 2]][s[|s| - 1]]
  }

  /**
   * The handler's fitness formula: the leg out of the depot, the legs between
   * consecutive customers, and the leg back to the depot.
   */
  function Fitness(m: Matrix, r: seq<nat>): nat
    requires Scorable(m, r)
  {
    m[0][r[0]] + LegSum(m, r) + m[r[|r| - 1]][0]
  }

  /** Scores one ordering the way the handler does, accumulating the legs in a loop. */
  method CalcFit(m: Matrix, ruta: seq<nat>) returns (d: nat)
    requires Scorable(m, ruta)
    ensures d == Fitness(m, ruta)
    ensures d == LegSum(m, ClosedTour(m, ruta))
  {
    d := m[0][ruta[0]];
    for i := 0 to |ruta| - 1
      invariant d == m[0][ruta[0]] + LegSum(m, ruta[..i + 1])
    {
      assert ruta[..i + 2][..i + 1] == ruta[..i + 1];
      d := d + m[ruta[i]][ruta[i + 1]];
    }
    assert ruta[..|ruta|] == ruta;
    d := d + m[ruta[|ruta| - 1]][0];
    FitnessIsClosedTour(m, ruta);
  }

  /** Prepending a stop adds exactly the leg from it to the old first stop. */
  lemma {:induction false} LegSumCons(m: Matrix, x: nat, s: seq<nat>)
    requires Square(m) && x < |m| && InRange(m, s)
    ensures LegSum(m, [x] + s) == (if |s| == 0 then 0 else m[x][s[0]]) + LegSum(m, s)
    decreases |s|
  {
    if |s| >= 2 {
      var t := s[..|s| - 1];
      LegSumCons(m, x, t);
      assert ([x] + s)[..|[x] + s| - 1] == [x] + t;
    }
  }

  /**
   * The fitness is the cost of the closed stop sequence [0] + r + [0]: the sum
   * of the matrix entries of every leg of the cyclic tour through the depot.
   */
  lemma FitnessIsClosedTour(m: Matrix, r: seq<nat>)
    requires Scorable(m, r)
    ensures Fitness(m, r) == LegSum(m, ClosedTour(m, r))
  {
    assert r[0] < |m|;
    var t := [0] + r;
    assert t + [0] == [0] + r + [0];
    assert (t + [0])[..|t + [0]| - 1] == t;
    LegSumCons(m, 0, r);
  }

  /** No single leg of a stop sequence costs more than the whole sequence. */
  lemma {:induction false} LegSumCoversLeg(m: Matrix, s: seq<nat>, k: nat)
    requires Square(m) && InRange(m, s) && k + 1 < |s|
    ensures m[s[k]][s[k + 1]] <= LegSum(m, s)
    decreases |s|
  {
    if k + 2 < |s| {
      var t := s[..|s| - 1];
      LegSumCoversLeg(m, t, k);
    }
  }

  /**
   * An ordering whose tour uses an unreachable leg (one the matrix records as
   * the sentinel) costs at least the sentinel.
   */
  lemma SentinelLegDominates(m: Matrix, r: seq<nat>, k: nat)
    requires Scorable(m, r)
    requires k <= |r|
    requires m[ClosedTour(m, r)[k]][ClosedTour(m, r)[k + 1]] == SENTINEL
    ensures Fitness(m, r) >= SENTINEL
  {
    FitnessIsClosedTour(m, r);
    LegSumCoversLeg(m, ClosedTour(m, r), k);
  }
}
