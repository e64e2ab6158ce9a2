/**
 * The evolutionary search over orderings of the customers: a population of
 * 50 random permutations of 1..N-1, evolved for 150 generations by keeping
 * the 10 fittest (elitism) and adding 40 copies of elite members, each with
 * two positions swapped. The random draws are explicit inputs.
 */
module Population {
  import opened DistanceMatrix
  import opened TourCost

  const POPULATION: nat := 50
  const ELITE: nat := 10
  const OFFSPRING: nat := 40
  const GENERATIONS: nat := 150

  /** An ordering of the customer stops; the depot 0 is implicit at both ends. */
  type Individual = seq<nat>

  /** The customer indices 1, 2, ..., n-1 (`range(1, n)`). */
  function Customers(n: nat): seq<nat> {
    seq(if n == 0 then 0 else n - 1, i => i + 1)
  }

  /** `p` is a permutation of the customers of an n-stop problem. */
  predicate IsTour(p: Individual, n: nat) {
    && |p| + 1 == n
    && (forall i :: 0 <= i < |p| ==> 1 <= p[i] < n)
    && multiset(p) == multiset(Customers(n))
  }

  /** Every member of `pop` is a permutation of the customers of the stops of `m`. */
  predicate Tours(m: Matrix, pop: seq<Individual>) {
    Square(m) && 2 <= |m| && forall k :: 0 <= k < |pop| ==> IsTour(pop[k], |m|)
  }

  /** Tours are non-empty orderings of stop indices, so they can be scored. */
  lemma ToursAreScorable(m: Matrix, pop: seq<Individual>)
    requires Tours(m, pop)
    ensures AllScorable(m, pop)
  {
    forall k | 0 <= k < |pop|
      ensures Scorable(m, pop[k])
    {
      assert IsTour(pop[k], |m|);
    }
  }

  // ---------------------------------------------------------------------------
  // Initial population: `random.sample(pedidos, len(pedidos))`, 50 times.

  /**
   * The generator's draws for one full-length sample of a pool of `size`
   * elements: draw `i` is an index into the `size - i` elements still left.
   */
  predicate ValidPicks(picks: seq<nat>, size: nat) {
    |picks| == size && forall i :: 0 <= i < size ==> picks[i] < size - i
  }

  /** Sampling every element of `pool` without replacement, in the order the draws pick them. */
  function Sample(pool: seq<nat>, picks: seq<nat>): (r: seq<nat>)
    requires ValidPicks(picks, |pool|)
    ensures multiset(r) == multiset(pool)
    decreases |pool|
  {
    if pool == [] then []
    else
      var j := picks[0];
      assert pool == pool[..j] + [pool[j]] + pool[j + 1..];
      [pool[j]] + Sample(pool[..j] + pool[j + 1..], picks[1..])
  }

  /** A rearrangement of the customers is a tour. */
  lemma PermutationIsTour(p: Individual, n: nat)
    requires 1 <= n && multiset(p) == multiset(Customers(n))
    ensures IsTour(p, n)
  {
    assert |p| == |multiset(p)| == |multiset(Customers(n))| == |Customers(n)|;
    forall i | 0 <= i < |p|
      ensures 1 <= p[i] < n
    {
      assert p[i] in multiset(p);
      assert p[i] in Customers(n);
    }
  }

  /** The starting population: one full sample of the customers per member. */
  function InitialPopulation(n: nat, picks: seq<seq<nat>>): (pop: seq<Individual>)
    requires 1 <= n
    requires |picks| == POPULATION && forall k :: 0 <= k < |picks| ==> ValidPicks(picks[k], n - 1)
    ensures |pop| == POPULATION && forall k :: 0 <= k < |pop| ==> IsTour(pop[k], n)
  {
    var pedidos := Customers(n);
    assert forall k | 0 <= k < POPULATION :: IsTour(Sample(pedidos, picks[k]), n) by {
      forall k | 0 <= k < POPULATION {
        PermutationIsTour(Sample(pedidos, picks[k]), n);
      }
    }
    seq(POPULATION, k requires 0 <= k < POPULATION => Sample(pedidos, picks[k]))
  }

  // ---------------------------------------------------------------------------
  // Swap mutation.

  /** The draw `random.sample(range(len), 2)`: two distinct positions, needed only when len > 1. */
  predicate ValidSwap(len: nat, a: nat, b: nat) {
    len > 1 ==> a < len && b < len && a != b
  }

  /** `p` with the values at positions `a` and `b` exchanged; an ordering of length <= 1 is left as it is. */
  function Swapped(p: Individual, a: nat, b: nat): Individual
    requires ValidSwap(|p|, a, b)
  {
    if |p| > 1 then p[a := p[b]][b := p[a]] else p
  }

  /**
   * Makes one offspring: a fresh copy of the parent (the deep copy), in which
   * the two drawn positions are swapped in place. The parent is a value and
   * is not affected.
   */
  method Mutate(parent: Individual, a: nat, b: nat) returns (child: Individual)
    requires ValidSwap(|parent|, a, b)
    ensures child == Swapped(parent, a, b)
    ensures multiset(child) == multiset(parent)
    ensures |parent| > 1 ==> child[a] == parent[b] && child[b] == parent[a]
    ensures forall i :: 0 <= i < |parent| && (|parent| <= 1 || (i != a && i != b)) ==> child[i] == parent[i]
  {
    var p := new nat[|parent|](i requires 0 <= i < |parent| => parent[i]);
    assert p[..] == parent;
    if p.Length > 1 {
      p[a], p[b] := p[b], p[a];
      assert p[..] == parent[a := parent[b]][b := parent[a]];
    }
    child := p[..];
    SwapPermutes(parent, a, b);
  }

  /** A swap only rearranges an ordering. */
  lemma SwapPermutes(p: Individual, a: nat, b: nat)
    requires ValidSwap(|p|, a, b)
    ensures multiset(Swapped(p, a, b)) == multiset(p)
  {
    if |p| > 1 {
      var q := p[a := p[b]];
      var others := multiset(p) - multiset{p[a]};
      assert multiset(p) == others + multiset{p[a]};
      assert multiset(q) == others + multiset{p[b]};
      assert q[b] == p[b];
      assert multiset(q[b := p[a]]) == others + multiset{p[a]};
    }
  }

  /** Swapping keeps an ordering a permutation of the customers. */
  lemma SwapKeepsTour(p: Individual, n: nat, a: nat, b: nat)
    requires IsTour(p, n) && ValidSwap(|p|, a, b)
    ensures IsTour(Swapped(p, a, b), n)
  {
    SwapPermutes(p, a, b);
    PermutationIsTour(Swapped(p, a, b), n);
  }

  // ---------------------------------------------------------------------------
  // Sorting by fitness (`poblacion.sort(key=calc_fit)`, a stable sort).

  /** Fitness never decreases from one member to the next. */
  predicate Ascending(m: Matrix, s: seq<Individual>)
    requires AllScorable(m, s)
  {
    forall i :: 0 <= i < |s| - 1 ==> Fitness(m, s[i]) <= Fitness(m, s[i + 1])
  }

  /** A rearrangement of a population of tours is a population of tours. */
  lemma RearrangedTours(m: Matrix, s: seq<Individual>, r: seq<Individual>)
    requires Tours(m, s) && multiset(r) == multiset(s)
    ensures Tours(m, r)
  {
    forall i | 0 <= i < |r|
      ensures IsTour(r[i], |m|)
    {
      assert r[i] in multiset(s);
      var j :| 0 <= j < |s| && s[j] == r[i];
    }
  }

  /** Inserts `x` before the first member of `s` that is not strictly fitter than it. */
  function Insert(m: Matrix, x: Individual, s: seq<Individual>): (r: seq<Individual>)
    requires AllScorable(m, s) && Scorable(m, x)
    ensures |r| == |s| + 1 && multiset(r) == multiset(s) + multiset{x}
    ensures AllScorable(m, r)
    ensures |s| > 0 ==> r[0] == x || r[0] == s[0]
    decreases |s|
  {
    if s == [] then [x]
    else if Fitness(m, x) <= Fitness(m, s[0]) then
      assert forall i :: 0 < i < |s| + 1 ==> ([x] + s)[i] == s[i - 1];
      [x] + s
    else
      var t := Insert(m, x, s[1..]);
      assert s == [s[0]] + s[1..];
      assert forall i :: 0 < i < |t| + 1 ==> ([s[0]] + t)[i] == t[i - 1];
      [s[0]] + t
  }

  /** Inserting into an ascending population keeps it ascending. */
  lemma {:induction false} InsertKeepsAscending(m: Matrix, x: Individual, s: seq<Individual>)
    requires AllScorable(m, s) && Scorable(m, x) && Ascending(m, s)
    ensures Ascending(m, Insert(m, x, s))
    decreases |s|
  {
    if s != [] && Fitness(m, x) > Fitness(m, s[0]) {
      var t := Insert(m, x, s[1..]);
      InsertKeepsAscending(m, x, s[1..]);
      var r := Insert(m, x, s);
      assert r == [s[0]] + t;
      assert Fitness(m, s[0]) <= Fitness(m, t[0]);
      forall i | 0 <= i < |r| - 1
        ensures Fitness(m, r[i]) <= Fitness(m, r[i + 1])
      {
        if i > 0 {
          assert r[i] == t[i - 1] && r[i + 1] == t[i];
        }
      }
    }
  }

  /**
   * The population in ascending order of fitness, as a rearrangement of the
   * original; members of equal fitness keep their relative order.
   */
  function SortByFitness(m: Matrix, pop: seq<Individual>): (r: seq<Individual>)
    requires AllScorable(m, pop)
    ensures |r| == |pop| && multiset(r) == multiset(pop)
    ensures AllScorable(m, r) && Ascending(m, r)
    decreases |pop|
  {
    if pop == [] then []
    else
      var rest := SortByFitness(m, pop[1..]);
      assert pop == [pop[0]] + pop[1..];
      InsertKeepsAscending(m, pop[0], rest);
      Insert(m, pop[0], rest)
  }

  /** In an ascending population, an earlier member is never less fit than a later one. */
  lemma {:induction false} AscendingOrdered(m: Matrix, s: seq<Individual>, i: nat, j: nat)
    requires AllScorable(m, s) && Ascending(m, s) && i <= j < |s|
    ensures Fitness(m, s[i]) <= Fitness(m, s[j])
    decreases j - i
  {
    if i < j {
      AscendingOrdered(m, s, i, j - 1);
    }
  }

  // ---------------------------------------------------------------------------
  // The best fitness of a population.

  /** The lowest fitness in a non-empty population. */
  function MinFitness(m: Matrix, pop: seq<Individual>): (f: nat)
    requires 0 < |pop| && AllScorable(m, pop)
    ensures exists k :: 0 <= k < |pop| && f == Fitness(m, pop[k])
    ensures forall k :: 0 <= k < |pop| ==> f <= Fitness(m, pop[k])
    decreases |pop|
  {
    if |pop| == 1 then Fitness(m, pop[0])
    else
      var rest := MinFitness(m, pop[1..]);
      if Fitness(m, pop[0]) <= rest then Fitness(m, pop[0]) else rest
  }

  /**
   * Finds the first member of minimal fitness, scoring each member once
   * (`min(poblacion, key=calc_fit)`).
   */
  method MinByFitness(m: Matrix, pop: seq<Individual>) returns (best: Individual)
    requires 0 < |pop| && AllScorable(m, pop)
    ensures exists k :: 0 <= k < |pop| && best == pop[k] && forall j :: 0 <= j < k ==> Fitness(m, best) < Fitness(m, pop[j])
    ensures forall j :: 0 <= j < |pop| ==> Fitness(m, best) <= Fitness(m, pop[j])
  {
    best := pop[0];
    var bestFit := CalcFit(m, pop[0]);
    ghost var at := 0;
    for i := 1 to |pop|
      invariant 0 <= at < i && best == pop[at] && bestFit == Fitness(m, best)
      invariant forall j :: 0 <= j < i ==> bestFit <= Fitness(m, pop[j])
      invariant forall j :: 0 <= j < at ==> bestFit < Fitness(m, pop[j])
    {
      var f := CalcFit(m, pop[i]);
      if f < bestFit {
        best, bestFit, at := pop[i], f, i;
      }
    }
  }

  // ---------------------------------------------------------------------------
  // One generation.

  /** The draws of one offspring: `random.choice(elite)` and the two swap positions. */
  datatype Draw = Draw(parent: nat, a: nat, b: nat)

  /** The 40 draws of one generation, for orderings of length `len`. */
  predicate ValidDraws(draws: seq<Draw>, len: nat) {
    |draws| == OFFSPRING && forall k :: 0 <= k < |draws| ==> draws[k].parent < ELITE && ValidSwap(len, draws[k].a, draws[k].b)
  }

  /**
   * The 40 offspring of one generation: offspring `k` is elite member
   * `draws[k].parent` with the positions `draws[k].a` and `draws[k].b` swapped.
   */
  function Offspring(elite: seq<Individual>, draws: seq<Draw>, len: nat): (kids: seq<Individual>)
    requires |elite| == ELITE && (forall i :: 0 <= i < ELITE ==> |elite[i]| == len) && ValidDraws(draws, len)
  {
    seq(OFFSPRING, k requires 0 <= k < OFFSPRING => Swapped(elite[draws[k].parent], draws[k].a, draws[k].b))
  }

  /** Offspring of tours are tours. */
  lemma OffspringAreTours(m: Matrix, elite: seq<Individual>, draws: seq<Draw>)
    requires |elite| == ELITE && Tours(m, elite) && ValidDraws(draws, |m| - 1)
    ensures Tours(m, Offspring(elite, draws, |m| - 1))
  {
    var kids := Offspring(elite, draws, |m| - 1);
    forall k | 0 <= k < OFFSPRING
      ensures IsTour(kids[k], |m|)
    {
      SwapKeepsTour(elite[draws[k].parent], |m|, draws[k].a, draws[k].b);
    }
  }

  /** The 10 fittest members of a population, as the sort leaves them. */
  function Elite(m: Matrix, pop: seq<Individual>): (elite: seq<Individual>)
    requires |pop| == POPULATION && Tours(m, pop)
    ensures |elite| == ELITE && Tours(m, elite)
  {
    var sorted := SortByFitness(m, pop);
    RearrangedTours(m, pop, sorted);
    sorted[..ELITE]
  }

  /**
   * The next population: the 10 fittest members of the population sorted by
   * fitness, followed by their 40 offspring.
   */
  function Generation(m: Matrix, pop: seq<Individual>, draws: seq<Draw>): (next: seq<Individual>)
    requires |pop| == POPULATION && Tours(m, pop) && ValidDraws(draws, |m| - 1)
    ensures |next| == POPULATION && Tours(m, next)
  {
    var elite := Elite(m, pop);
    var kids := Offspring(elite, draws, |m| - 1);
    OffspringAreTours(m, elite, draws);
    assert forall k :: 0 <= k < POPULATION ==> (elite + kids)[k] == if k < ELITE then elite[k] else kids[k - ELITE];
    elite + kids
  }

  /**
   * The `while len(nuevos) < 40` loop: each new member is a mutated deep copy
   * of the elite member its draw picks.
   */
  method Breed(elite: seq<Individual>, draws: seq<Draw>, len: nat) returns (nuevos: seq<Individual>)
    requires |elite| == ELITE && (forall i :: 0 <= i < ELITE ==> |elite[i]| == len) && ValidDraws(draws, len)
    ensures nuevos == Offspring(elite, draws, len)
  {
    ghost var kids := Offspring(elite, draws, len);
    nuevos := [];
    while |nuevos| < OFFSPRING
      invariant |nuevos| <= OFFSPRING
      invariant forall k :: 0 <= k < |nuevos| ==> nuevos[k] == kids[k]
    {
      var d := draws[|nuevos|];
      var p := Mutate(elite[d.parent], d.a, d.b);
      nuevos := nuevos + [p];
    }
  }

  /** Runs one generation as the handler's loop body does: sort, keep the elite, breed, concatenate. */
  method NextGeneration(m: Matrix, poblacion: seq<Individual>, draws: seq<Draw>) returns (next: seq<Individual>)
    requires |poblacion| == POPULATION && Tours(m, poblacion) && ValidDraws(draws, |m| - 1)
    ensures next == Generation(m, poblacion, draws)
  {
    var sorted := SortByFitness(m, poblacion);
    var elite := sorted[..ELITE];
    assert elite == Elite(m, poblacion);
    assert forall i :: 0 <= i < ELITE ==> IsTour(elite[i], |m|);
    var nuevos := Breed(elite, draws, |m| - 1);
    next := elite + nuevos;
  }

  /**
   * The survivors are the fittest: the first 10 members of the next
   * population are members of the old one, and no member of the old
   * population left out of them (counting repeated orderings) is fitter than
   * any of them.
   */
  lemma EliteAreFittest(m: Matrix, pop: seq<Individual>, draws: seq<Draw>)
    requires |pop| == POPULATION && Tours(m, pop) && ValidDraws(draws, |m| - 1)
    ensures var next := Generation(m, pop, draws);
      && multiset(next[..ELITE]) <= multiset(pop)
      && forall i, j :: 0 <= i < ELITE && 0 <= j < |pop| && multiset(next[..ELITE])[pop[j]] < multiset(pop)[pop[j]] ==>
           Fitness(m, next[i]) <= Fitness(m, pop[j])
  {
    var next := Generation(m, pop, draws);
    var sorted := SortByFitness(m, pop);
    var elite, rest := sorted[..ELITE], sorted[ELITE..];
    assert sorted == elite + rest;
    assert next[..ELITE] == elite;
    assert multiset(pop) == multiset(elite) + multiset(rest);
    forall i, j | 0 <= i < ELITE && 0 <= j < |pop| && multiset(elite)[pop[j]] < multiset(pop)[pop[j]]
      ensures Fitness(m, next[i]) <= Fitness(m, pop[j])
    {
      assert pop[j] in multiset(rest);
      var t :| 0 <= t < |rest| && rest[t] == pop[j];
      AscendingOrdered(m, sorted, i, ELITE + t);
    }
  }

  /** The first member of an ascending rearrangement of a population is a member of lowest fitness. */
  lemma AscendingHeadIsFittest(m: Matrix, pop: seq<Individual>, sorted: seq<Individual>)
    requires 0 < |pop| && AllScorable(m, pop) && AllScorable(m, sorted)
    requires multiset(sorted) == multiset(pop) && Ascending(m, sorted)
    ensures |sorted| == |pop| && sorted[0] in pop
    ensures Fitness(m, sorted[0]) == MinFitness(m, pop)
  {
    assert |sorted| == |multiset(sorted)| == |multiset(pop)| == |pop|;
    SameMembers(pop, sorted);
    var k :| 0 <= k < |pop| && MinFitness(m, pop) == Fitness(m, pop[k]);
    assert pop[k] in sorted;
    var t :| 0 <= t < |sorted| && sorted[t] == pop[k];
    AscendingOrdered(m, sorted, 0, t);
    assert sorted[0] in pop;
  }

  /** Two rearrangements of each other have the same members. */
  lemma SameMembers(s: seq<Individual>, r: seq<Individual>)
    requires multiset(s) == multiset(r)
    ensures forall x :: x in s <==> x in r
  {
    forall x
      ensures x in s <==> x in r
    {
      assert x in s <==> x in multiset(s);
    }
  }

  /** The first member of the next population is a fittest member of the old one. */
  lemma BestSurvives(m: Matrix, pop: seq<Individual>, draws: seq<Draw>)
    requires |pop| == POPULATION && Tours(m, pop) && ValidDraws(draws, |m| - 1)
    ensures Generation(m, pop, draws)[0] in pop
    ensures Fitness(m, Generation(m, pop, draws)[0]) == MinFitness(m, pop)
  {
    ToursAreScorable(m, pop);
    var sorted := SortByFitness(m, pop);
    assert Generation(m, pop, draws)[0] == sorted[0];
    AscendingHeadIsFittest(m, pop, sorted);
  }

  /** Each of the 40 new members is one swap away from one of the 10 survivors it follows. */
  lemma OffspringOfSurvivors(m: Matrix, pop: seq<Individual>, draws: seq<Draw>)
    requires |pop| == POPULATION && Tours(m, pop) && ValidDraws(draws, |m| - 1)
    ensures var next := Generation(m, pop, draws);
      forall k :: 0 <= k < OFFSPRING ==>
        draws[k].parent < ELITE && next[ELITE + k] == Swapped(next[draws[k].parent], draws[k].a, draws[k].b)
  {
  }

  /** Elitism: the best fitness in the population never gets worse from one generation to the next. */
  lemma GenerationNeverWorsens(m: Matrix, pop: seq<Individual>, draws: seq<Draw>)
    requires |pop| == POPULATION && Tours(m, pop) && ValidDraws(draws, |m| - 1)
    ensures MinFitness(m, Generation(m, pop, draws)) <= MinFitness(m, pop)
  {
    BestSurvives(m, pop, draws);
  }

  // ---------------------------------------------------------------------------
  // The whole run.

  /** Draws for every generation of a run. */
  predicate ValidSchedule(gens: seq<seq<Draw>>, len: nat) {
    forall g :: 0 <= g < |gens| ==> ValidDraws(gens[g], len)
  }

  /** The population after one generation per entry of `gens`. */
  function Run(m: Matrix, pop: seq<Individual>, gens: seq<seq<Draw>>): (last: seq<Individual>)
    requires |pop| == POPULATION && Tours(m, pop) && ValidSchedule(gens, |m| - 1)
    ensures |last| == POPULATION && Tours(m, last)
    decreases |gens|
  {
    if gens == [] then pop
    else Generation(m, Run(m, pop, gens[..|gens| - 1]), gens[|gens| - 1])
  }

  /** Over any number of generations the best fitness never gets worse. */
  lemma {:induction false} RunNeverWorsens(m: Matrix, pop: seq<Individual>, gens: seq<seq<Draw>>)
    requires |pop| == POPULATION && Tours(m, pop) && ValidSchedule(gens, |m| - 1)
    ensures MinFitness(m, Run(m, pop, gens)) <= MinFitness(m, pop)
    decreases |gens|
  {
    if gens != [] {
      var before := Run(m, pop, gens[..|gens| - 1]);
      RunNeverWorsens(m, pop, gens[..|gens| - 1]);
      GenerationNeverWorsens(m, before, gens[|gens| - 1]);
    }
  }

  /** Running one more generation of the schedule is one more `Generation`. */
  lemma RunStep(m: Matrix, init: seq<Individual>, gens: seq<seq<Draw>>, g: nat)
    requires |init| == POPULATION && Tours(m, init) && ValidSchedule(gens, |m| - 1) && g < |gens|
    ensures ValidSchedule(gens[..g], |m| - 1) && ValidSchedule(gens[..g + 1], |m| - 1)
    ensures Run(m, init, gens[..g + 1]) == Generation(m, Run(m, init, gens[..g]), gens[g])
  {
    assert gens[..g + 1][..g] == gens[..g];
  }

  /**
   * The 150-generation loop followed by the choice of the best member: the
   * result is the first fittest member of the final population, its fitness
   * is the returned cost, and it is at least as good as the best starting
   * member.
   */
  method Evolve(m: Matrix, init: seq<Individual>, gens: seq<seq<Draw>>) returns (mejorRuta: Individual, distTotal: nat)
    requires |init| == POPULATION && Tours(m, init)
    requires |gens| == GENERATIONS && ValidSchedule(gens, |m| - 1)
    ensures IsTour(mejorRuta, |m|)
    ensures distTotal == Fitness(m, mejorRuta)
    ensures exists k :: 0 <= k < POPULATION && mejorRuta == Run(m, init, gens)[k]
                        && forall j :: 0 <= j < k ==> distTotal < Fitness(m, Run(m, init, gens)[j])
    ensures mejorRuta in Run(m, init, gens)
    ensures forall j :: 0 <= j < POPULATION ==> distTotal <= Fitness(m, Run(m, init, gens)[j])
    ensures distTotal <= MinFitness(m, init)
  {
    var poblacion := init;
    for g := 0 to GENERATIONS
      invariant ValidSchedule(gens[..g], |m| - 1) && poblacion == Run(m, init, gens[..g])
    {
      RunStep(m, init, gens, g);
      poblacion := NextGeneration(m, poblacion, gens[g]);
    }
    assert gens[..GENERATIONS] == gens;
    ToursAreScorable(m, poblacion);
    mejorRuta := MinByFitness(m, poblacion);
    distTotal := CalcFit(m, mejorRuta);
    BestOfRun(m, init, gens, mejorRuta);
  }

  /** A fittest member of the final population is a tour and no worse than the best starting member. */
  lemma BestOfRun(m: Matrix, init: seq<Individual>, gens: seq<seq<Draw>>, best: Individual)
    requires |init| == POPULATION && Tours(m, init) && ValidSchedule(gens, |m| - 1)
    requires AllScorable(m, Run(m, init, gens))
    requires exists k :: 0 <= k < POPULATION && best == Run(m, init, gens)[k]
    requires forall j :: 0 <= j < POPULATION ==> Fitness(m, best) <= Fitness(m, Run(m, init, gens)[j])
    ensures IsTour(best, |m|) && Fitness(m, best) <= MinFitness(m, init)
  {
    var last := Run(m, init, gens);
    var k :| 0 <= k < POPULATION && best == last[k];
    assert IsTour(last[k], |m|);
    var i :| 0 <= i < POPULATION && MinFitness(m, last) == Fitness(m, last[i]);
    RunNeverWorsens(m, init, gens);
  }

  /** With one customer the only ordering is [1], costing the trip out and back. */
  lemma SingleCustomer(m: Matrix, p: Individual)
    requires Square(m) && |m| == 2 && IsTour(p, 2)
    ensures p == [1] && Fitness(m, p) == m[0][1] + m[1][0]
  {
  }
}
