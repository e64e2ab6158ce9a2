# Delivery route optimiser — a verified model

This project models the "Optimizar Ruta" request of a Streamlit application
that plans an urban delivery tour in Huánuco (Peru) on a road network. The user picks a depot and
customer points on a map. The application then does four things:

1. It builds an N x N matrix of directed shortest-path lengths between the
   stops. A pair with no path gets the sentinel `999999`, and a pair whose
   two stops are on the same node gets 0.
2. It scores an ordering of the customers by the length of the closed tour
   depot -> customers -> depot.
3. It evolves 50 random orderings for 150 generations. Each generation
   sorts the population by fitness and keeps the 10 best (elitism). It then
   adds 40 copies of elite members, each with two positions swapped. At the
   end the first fittest member is taken.
4. It expands the best ordering into the node sequence of the route by
   stitching together one shortest path per leg.

The road graph is an oracle (`RoadGraph.Graph`). It answers the two
shortest-path queries the request makes. `RoadGraph.Valid` states what the
graph library promises of those answers:

- the two queries agree on whether a path exists;
- a path starts and ends at the queried nodes and repeats no node;
- the path from a node to itself is that node alone.

Randomness is an explicit input, so every run is deterministic given its
draws:

- `picks` stands for the draws of `random.sample` in the initial population;
- `Draw(parent, a, b)` stands for `random.choice(elite)` followed by
  `random.sample(range(len), 2)`.

Modules, leaf first: `RoadGraph` (road_graph.dfy), `DistanceMatrix`
(distance_matrix.dfy), `TourCost` (tour_cost.dfy), `Population`
(population.dfy), `Reconstruction` (reconstruction.dfy) and `Optimizer`
(optimizer.dfy).

The source's loops become methods that are proved against specification
functions:

| method | source | proved against |
|---|---|---|
| `BuildMatrix` | matrix loops | `DistanceTable` |
| `CalcFit` | `calc_fit` | `Fitness` |
| `NextGeneration` | loop body | `Generation` |
| `Breed` | offspring loop | `Offspring` |
| `Evolve` | generation loop and `min` | `Run` |
| `ReconstructRoute` | stitching loop | `Route` |

Library calls with no loop in the source are modelled as functions:

- `list.sort(key=...)` becomes `SortByFitness`, a stable insertion sort;
- `random.sample` becomes `Sample`.

Individuals are sequence values. `Mutate` makes each offspring the way the
handler does: it copies the parent into a fresh array (the deep copy) and
swaps two positions of that copy in place.

The application's own explanatory tabs describe the search differently from
the handler that runs it. The model follows the handler:

- The technical tab (app.py:67-69) says 100 random routes, 200 generations
  and 20 surviving routes. The handler uses 50 routes, 150 generations and
  10 survivors plus 40 offspring (app.py:169-175), and so does the model.
- The theory tab (app.py:46) names crossover as a step. The handler never
  combines two routes. Each offspring is one elite route with a swap.
- The theory tab (app.py:47) says mutation happens only now and then.
  The handler swaps two positions of every offspring that has at least two
  customers, and the model does the same.

Two further modelling decisions follow the code:

- A matrix entry is 0 whenever the two stops are the same road node
  (`o != d` is a test on nodes, app.py:156). Zero is not limited to the
  diagonal.
- A request with fewer than two stops is not an error path. The button is
  only offered with two or more points (app.py:143), so the model states
  this as a precondition (`requires 2 <= |nodos|`).

## Model

| member | source | states |
|---|---|---|
| DistanceMatrix.DistanceTable | app.py:151-159 | the matrix has one row per stop and every row has one entry per stop, so it is always fully populated |
| DistanceMatrix.BuildMatrix | app.py:151-159 | the nested loops produce an N x N matrix. An entry is 0 whenever origin and destination are the same node. An entry is the shortest-path length when one exists, and the sentinel 999999 when the library reports no path |
| DistanceMatrix.SentinelIffUnreachable | app.py:155-158 | if every real length is below the sentinel, an entry is the sentinel exactly when its two nodes differ and have no path between them (both directions) |
| TourCost.CalcFit | app.py:162-166 | the accumulating loop computes the depot leg, the consecutive customer legs and the return leg. That equals the summed cost of the closed tour [0] + r + [0]. It needs a non-empty ordering of valid stop indices |
| TourCost.FitnessIsClosedTour | app.py:162-166 | the fitness formula equals the sum of the matrix entries over every leg of the cyclic tour through the depot |
| TourCost.LegSumCoversLeg | app.py:164 | no single leg costs more than the summed legs of the whole stop sequence |
| TourCost.SentinelLegDominates | app.py:162-166 | an ordering whose tour uses a leg recorded as the sentinel has fitness at least the sentinel |
| Population.Sample | app.py:169 | sampling every customer without replacement yields a rearrangement of the pool, whatever the draws |
| Population.PermutationIsTour | app.py:168-169 | a rearrangement of `range(1, N)` has length N-1 and only customer indices, so it is a tour |
| Population.InitialPopulation | app.py:168-169 | the starting population has 50 members and each one is a permutation of the customers 1..N-1 |
| Population.Mutate | app.py:176-179 | the offspring is a fresh copy of the parent with exactly the two drawn positions exchanged, and every other position is unchanged. It is a rearrangement of the parent. An ordering of length <= 1 is returned unchanged |
| Population.SwapPermutes | app.py:179 | a swap only rearranges an ordering: the multiset of its values is unchanged |
| Population.SwapKeepsTour | app.py:177-179 | a swap keeps an ordering a permutation of the customers |
| Population.SortByFitness | app.py:172 | the sorted population is a rearrangement of the old one and is ascending in fitness |
| Population.InsertKeepsAscending | app.py:172 | inserting a member into an ascending population keeps it ascending |
| Population.AscendingOrdered | app.py:172 | in the sorted population no member is fitter than an earlier one |
| Population.AscendingHeadIsFittest | app.py:172-173 | the first member of an ascending rearrangement of the population is a member with the lowest fitness |
| Population.MinFitness | app.py:183 | the value is the fitness of some member and no member has a lower fitness |
| Population.MinByFitness | app.py:183 | the result is a member of minimal fitness, and it is the first such member in population order, as `min` returns it |
| Population.Elite | app.py:172-173 | the elite has 10 members and all of them are tours |
| Population.OffspringAreTours | app.py:174-180 | each of the 40 offspring is a permutation of the customers |
| Population.Breed | app.py:174-180 | the `while` loop yields exactly 40 offspring. Offspring k is the elite member picked by draw k, copied and with that draw's two positions swapped |
| Population.Generation | app.py:172-181 | the next population again has exactly 50 members, all of them tours |
| Population.NextGeneration | app.py:172-181 | the loop that builds `nuevos` from 40 mutated deep copies, plus the elite, yields the next population |
| Population.EliteAreFittest | app.py:172-173 | the first 10 members of the next population are members of the old one. No member of the old population left out of them, counting repeats, is fitter than any of them |
| Population.BestSurvives | app.py:172-181 | the first member of the next population is a member of the old one and has the old population's minimal fitness |
| Population.OffspringOfSurvivors | app.py:174-181 | each of the last 40 members is a survivor among the first 10, unchanged apart from its one swap. Making offspring never alters the survivors |
| Population.GenerationNeverWorsens | app.py:171-181 | elitism: the minimal fitness of the population does not increase from one generation to the next |
| Population.Run | app.py:171-181 | after any number of generations the population still has 50 members, all of them tours |
| Population.RunNeverWorsens | app.py:171-181 | over any number of generations the minimal fitness never increases |
| Population.Evolve | app.py:168-184 | after 150 generations the returned ordering is a tour and a member of the final population. It is the first member of lowest fitness there, as `min` picks it. Its returned cost is its fitness, which is minimal in the final population and no worse than the best initial member |
| Population.BestOfRun | app.py:183-184 | a fittest member of the final population is a tour whose fitness is no worse than the best starting member |
| Population.SingleCustomer | app.py:162-179 | with one customer the only ordering is [1], and its cost is the trip out and back |
| Reconstruction.ReconstructRoute | app.py:187-192 | the stitching loop returns the route through depot, customers in order and depot, or the first leg without a path |
| Reconstruction.StitchedFailurePersists | app.py:189-191 | once a leg has no path, the rest of the stitching does not change the error |
| Reconstruction.RouteSucceedsIff | app.py:189-191 | reconstruction succeeds exactly when every leg of the tour has a path (both directions) |
| Reconstruction.FailingLeg | app.py:190 | a failure names a leg of the tour that has no path, and every earlier leg has one |
| Reconstruction.RouteStep | app.py:190-191 | adding a leg removes the last node of the route so far and appends the leg's whole path |
| Reconstruction.RouteShape | app.py:187-192 | a rebuilt route starts at the first stop and ends at the last. It passes through every stop and never has the same node twice in a row |
| Reconstruction.RouteLength | app.py:188-192 | the route's length is 1 plus the sum over legs of (path length - 1) |
| Optimizer.StopsFollowTour | app.py:187 | stop i of the node sequence is the node of the matrix index at position i of the closed tour |
| Optimizer.UnbuildableRouteCostsSentinel | app.py:155-190 | if the route cannot be rebuilt, the reported distance is at least the sentinel |
| Optimizer.RouteGuarantees | app.py:187-192 | a route that is rebuilt starts and ends at the depot node and has no repeated adjacent node. A tour whose distance is below the sentinel is always rebuilt |
| Optimizer.OptimizeRoute | app.py:146-194 | the whole request. The best ordering is a tour, and its distance is its fitness in the distance matrix. The ordering is the first member of lowest fitness in the population left after the 150 generations, as `min` picks it, and its distance is no worse than any initial member. With two stops the ordering is [1], costing out and back. The route is the reconstruction of that ordering, starts and ends at the depot, and exists whenever the distance is below the sentinel |

## Left out

- The Streamlit page, sidebar, tabs, texts, balloons, reruns, the Folium map, and click and session-state handling (app.py:9-83, 100-141, 195-197). These are presentation, with no behaviour to verify.
- Loading the GraphML file and the check that it exists (app.py:86-98). This is file I/O.
- `ox.nearest_nodes` (app.py:148). The stop nodes `nodos` are an input.
- The coordinate lookup for the drawn route (app.py:194). The route is returned as node identifiers.
- The internals of `nx.shortest_path_length` and `nx.shortest_path` (Dijkstra). They are an oracle, and `RoadGraph.Valid` states what they promise.
- Floating-point edge lengths and the kilometre formatting (app.py:156, 197). Costs are natural numbers.
- The pseudo-random generator. Its draws are inputs.
- Population.Sample: the mapping from draws to orderings is not CPython's internal one. Each draw takes one remaining element, so the set of reachable orderings is the same, but a given seed would not give the same ordering.
- Population.SortByFitness: it is stable by construction, as `list.sort` is: members of equal fitness keep their order. No contract states this.
- Crossover. It is described in the application's theory tab (app.py:46) but the handler never performs it.
- Agreement between the stitched route's summed edge lengths and the reported distance. Edge weights are not modelled.
- Any claim that the search reaches the shortest tour. The theory tab (app.py:50) says it finds one in seconds, but that depends on the random draws and is not guaranteed.
- The matrix loop catches every exception, but only "no path" is modelled. Other library errors cannot occur for nodes that come from the graph itself.
