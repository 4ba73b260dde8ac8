# Delivery-Truck: a verified model of the CVRP solver core

The repository is a small Swing program for the capacitated vehicle-routing problem. The user
clicks a depot and delivery points, gives each point an integer demand, and chooses a number of
trucks and one capacity for all of them. A simulated-annealing solver then assigns the points to
trucks and orders each truck's route, trying to keep the total closed-tour distance low. This
project models the three pieces of the solver with algorithmic content and proves their
properties in Dafny:

- **Truck bookkeeping** (`src/Truck.java`). This is class `Trucks.Truck`. The fields are
  `capacity`, `currentLoad` and `route`, and the methods are specified by pure functions on the
  value `TruckState`: `NewTruck`, `AddPoint`, `WithRoute` and `RouteDistance`.
- **The annealing search** (`src/SimulatedAnnealing.java`). This is class
  `Annealing.SimulatedAnnealing`, with the same fields. A solution is a sequence of `TruckState`
  values. The value-level pieces live in module `Solutions`: the fleet, first-fit placement,
  the two-position swap, the multiset of routed points and the cost.
- **The Fisher–Yates shuffle** behind the "Initialize Random Path" button
  (`src/DeliveryOptimizer.java`). This is `RandomPath.GenerateRandomPath`, which works in place
  on an array copy of the points.

Distances are an uninterpreted function `Distance = (DeliveryPoint, DeliveryPoint) -> real`, so
every cost fact holds for any distance. Randomness is never simulated. Where the source calls
`Collections.shuffle` or `Random.nextInt`, or compares `Math.exp(...)` with `Math.random()`,
the model either takes the outcome as a parameter or makes a nondeterministic choice
(`var x :| ...`). Each proof therefore covers every possible outcome of the random draws.

In these places the model follows exactly what the code does, including behaviour a reader
might not expect:

- An empty route costs `dist(depot, depot)`, the single depot-to-depot leg
  (`src/Truck.java:43-52`).
- The neighbour move checks capacity against the loads of a fresh clone. It then writes the
  exchanged points through the route lists and does not update those loads
  (`src/SimulatedAnnealing.java:101-104`). The model keeps these loads stale as well;
  `GenerateNeighborSolution` states it, and the next clone (`CloneTrucks`) resynchronises them.
- Nothing validates the number of trucks, the capacity or the demands; they can be any `int`.
  A non-positive `numTrucks` gives an empty fleet. Once initialised, `solve` on an empty fleet
  with at least one iteration throws: `Random.nextInt(0)` raises `IllegalArgumentException` before any field
  changes, and this is the `Outcome` that `Solve` returns. With a negative capacity, an empty
  truck's zero load already exceeds the capacity. The invariant is therefore "every non-empty
  route's demand is within capacity" (`WithinCapacity`). `FleetSpec` and `FirstFitSpec` show
  that this holds for the trucks the constructor builds, whatever the capacity.

## Model

| member | source | states |
|---|---|---|
| Trucks.Truck.constructor | src/Truck.java:9-13 | a new truck has the given capacity, load 0 and an empty route |
| Trucks.Truck.CanAddDeliveryPoint | src/Truck.java:32-34 | the answer is true exactly when `currentLoad + dp.demand <= capacity` |
| Trucks.Truck.AddDeliveryPoint | src/Truck.java:36-41 | when the check passes, `dp` is appended to the route and the load stays within capacity; otherwise nothing changes; a load equal to the route's demand sum stays equal |
| Trucks.AddPointSpec | src/Truck.java:32-41 | the guarded append adds `dp` at the end of the route and its demand to the load, or leaves the truck as it was; after a successful append the load is at most the capacity; it keeps the load equal to the demand sum |
| Trucks.DemandSumAppend | src/Truck.java:29 | appending a point adds its demand to the route's demand sum |
| Trucks.Truck.SetRoute | src/Truck.java:27-30 | the route becomes `r`, the load becomes the sum of `r`'s demands, and the capacity is unchanged |
| Trucks.WithRouteSpec | src/Truck.java:27-30 | after setRoute the load is in step with the route; setRoute with the truck's own route changes nothing when the truck was already in step |
| Trucks.WriteThroughDesyncs | src/Truck.java:23-25 | writing a point of different demand into the list that getRoute returns leaves the load out of step; setRoute brings it back |
| Trucks.DemandSumUpdate | src/SimulatedAnnealing.java:101-104 | replacing one route position changes the demand sum by the difference of the two demands |
| Trucks.ComputeRouteDistance | src/Truck.java:43-52 | the loop's total equals the cost of the closed tour `depot, route..., depot` |
| Trucks.Truck.CalculateRouteDistance | src/Truck.java:43-52 | the method returns the closed-tour cost of the truck's own route |
| Trucks.PathCostCons | src/Truck.java:44-50 | the tour cost is the first leg plus the cost of the rest |
| Trucks.RouteDistanceEmpty | src/Truck.java:50 | an empty route costs `dist(depot, depot)` |
| Trucks.RouteDistanceCons | src/Truck.java:45-50 | a route's cost is the leg from the depot to its first point plus the rest of the tour back to the depot |
| Solutions.FleetSpec | src/SimulatedAnnealing.java:22-24 | the constructor's fleet has `max(numTrucks, 0)` trucks, each a new truck of the given capacity; all are in step and within capacity, and none routes any point |
| Solutions.FirstFitIndex | src/SimulatedAnnealing.java:80-85 | the chosen truck can take the point and no truck before it can; the index equals the fleet size exactly when no truck can take it |
| Solutions.PlaceOneSpec | src/SimulatedAnnealing.java:79-86 | one placement appends the point to the first truck that can take it and to no other route, or drops it; it is routed at most once; that truck's load stays within capacity; bookkeeping and capacities are kept |
| Solutions.FirstFitSpec | src/SimulatedAnnealing.java:77-87 | first fit keeps the fleet's size and capacities; load equal to the demand sum and within capacity survive; routed points plus dropped points are exactly the input points; routes only grow at the end |
| Solutions.FirstFitKeepsOrder | src/SimulatedAnnealing.java:79-86 | starting from empty trucks, each route is a subsequence of the shuffled order |
| Solutions.SyncedDetermined | src/SimulatedAnnealing.java:122-130 | two solutions with equal capacities and routes, both in step, are equal, so a clone of an in-step solution is that solution |
| Solutions.SwapRoutesShape | src/SimulatedAnnealing.java:103-104 | the swap keeps the number of routes and every route length and touches no other route; across two trucks it exchanges the two positions; in one truck both writes hit the same route |
| Solutions.SwapRoutesConserves | src/SimulatedAnnealing.java:98-104 | the swap never adds or loses a routed point (the multiset is unchanged) |
| Solutions.SwapRoutesDemand | src/SimulatedAnnealing.java:101-104 | a cross-truck swap shifts the exchanged demand difference between the two trucks; a swap inside one route leaves its demand sum unchanged |
| Solutions.WriteSwapSpec | src/SimulatedAnnealing.java:103-104 | writing the swap into truck values gives the swapped routes and keeps capacities, loads and routed points |
| Solutions.WriteSwapFits | src/SimulatedAnnealing.java:101-104 | a committed swap keeps every truck that fitted fitting, and both swapped trucks fit |
| Solutions.TotalCostUpdate | src/SimulatedAnnealing.java:114-120 | changing one route changes the total cost by the difference of that route's costs |
| Annealing.SimulatedAnnealing.constructor | src/SimulatedAnnealing.java:18-27 | creates `max(numTrucks, 0)` trucks of capacity `truckCapacity` with empty routes and load 0, not yet initialised |
| Annealing.SimulatedAnnealing.Initialize | src/SimulatedAnnealing.java:29-39 | the first call builds the first-fit solution over the shuffled points and makes it current and best, with equal distances; any later call changes nothing |
| Annealing.SimulatedAnnealing.GenerateInitialSolution | src/SimulatedAnnealing.java:77-87 | the nested loop leaves the trucks equal to first fit over the shuffled points |
| Annealing.SimulatedAnnealing.Solve | src/SimulatedAnnealing.java:41-75 | a no-op before initialize; throws exactly on an empty fleet with iterations to run; otherwise keeps every invariant, never raises `bestDistance`, keeps every truck's route length as first fit left it, and publishes the best solution as the trucks |
| Annealing.SimulatedAnnealing.RunIterations | src/SimulatedAnnealing.java:50-72 | the loop keeps `bestDistance <= currentDistance`, feasibility, the routed points and the route lengths, and never raises `bestDistance` |
| Annealing.SimulatedAnnealing.Step | src/SimulatedAnnealing.java:54-71 | the candidate is a `Neighbour` of the current solution: same fleet, capacities, route lengths and routed points, and routes that are a committed two-position swap or the old routes; a strictly cheaper candidate is always accepted; the current solution is either kept or replaced by the candidate; the best distance becomes the minimum of itself and the candidate's, and the best solution changes only then |
| Annealing.SimulatedAnnealing.Accept | src/SimulatedAnnealing.java:58-71 | a strictly cheaper candidate becomes current; otherwise the current solution is kept or replaced by the candidate; a candidate cheaper than the best is cloned into the best solution, which otherwise stays; the search invariant, route lengths included, is kept |
| Annealing.SimulatedAnnealing.GenerateNeighborSolution | src/SimulatedAnnealing.java:89-108 | same fleet size, capacities and route lengths; loads recomputed from the input's routes; routes swapped exactly when the move is committed, else unchanged (and then equal in cost); routed multiset kept; capacity closure; the result is a `Neighbour` of the input |
| Annealing.SimulatedAnnealing.CloneTrucks | src/SimulatedAnnealing.java:122-130 | same length, capacities and routes; every load recomputed as its route's demand sum; an in-step input is returned equal |
| Solutions.RoutesDetermineLengths | src/SimulatedAnnealing.java:122-130 | a clone, which has the original's routes, has the original's route lengths |
| Annealing.SimulatedAnnealing.CalculateTotalDistance | src/SimulatedAnnealing.java:114-120 | the total is the sum of the trucks' closed-tour costs |
| Annealing.SimulatedAnnealing.GetSolution | src/SimulatedAnnealing.java:132-134 | returns the trucks: the configured fleet, in step and within capacity, and the best solution with cost `bestDistance` once initialised |
| RandomPath.GenerateRandomPath | src/DeliveryOptimizer.java:107-117 | the result has the input's length and multiset; it is the input after one legal swap per step; for 0 or 1 points it is the input |
| RandomPath.ShuffledPermutes | src/DeliveryOptimizer.java:110-115 | every prefix of the swap loop permutes the list |
| RandomPath.SwapPermutes | src/DeliveryOptimizer.java:112-114 | one swap step permutes the list |
| RandomPath.ShuffledSettles | src/DeliveryOptimizer.java:110-115 | once the step for `i` has run, position `i` keeps its value through all later steps |

## Left out

- The Swing front end of `src/DeliveryOptimizer.java` is I/O and rendering: the window, dialogs,
  mouse and button listeners, `DrawingPanel.paintComponent`, `getRandomColor` and
  `System.exit`. The parsing of truck count, capacity and demands is left out with it.
- `DeliveryPoint.distanceTo` is floating-point `sqrt`/`pow`. Distances are an uninterpreted
  function to reals, and all sums of doubles are exact sums of reals (no rounding, no NaN).
- The cooling update `temperature *= initialTemperature / Math.log(i)` in `solve` is left out,
  because it is floating point. At `i = 0` and `i = 1` it gives infinities, `-0.0` and NaN, and
  its only use is the uphill test.
- That uphill test, `Math.exp(-difference / temperature) > Math.random()`, is a
  nondeterministic boolean in `Step`. Every outcome is proved, but the acceptance probability
  is not modelled.
- `Collections.shuffle` is the `shuffled` parameter of `Initialize`. The parameter must be a
  permutation of the points, but the shuffle's distribution is not modelled. The Java call
  shuffles the list object that the front end passed in, so that caller's list changes too;
  the model has no such aliasing.
- The draws of `Random.nextInt` are parameters of `GenerateNeighborSolution` and a
  nondeterministic choice in `Step` and in `GenerateRandomPath`; their distribution is not
  modelled.
- Aliasing between Java lists is not modelled, because solutions are values. Two cases matter:
  - `bestSolution = currentSolution` in `initialize`: `currentSolution` is only ever replaced
    by a fresh clone, never changed in place, so values give the same results.
  - The route list that `getRoute()` hands out: the one place the source writes through it is
    the swap, which the model writes out with `WriteThroughRoute`, keeping the load stale just
    as the source does.
- `Annealing.SimulatedAnnealing` holds solutions as sequences of `TruckState` values, not as
  lists of `Truck` objects. Its methods use the same functions (`AddPoint`, `WithRoute`) that
  specify `Trucks.Truck`'s methods.
- `Solve` runs its loop in three helper methods, `RunIterations`, `Step` and `Accept`, so that each proof
  stays small. It also checks for the empty-fleet exception once, before the loop. The source
  would raise it in the first iteration, and nothing observable happens in between.
- Integers are unbounded: Java's 32-bit `int` overflow in load and demand sums is not modelled.
- The getters `getCapacity`, `getCurrentLoad` and `getRoute` are plain field reads of `Truck`.
  The parameterless `calculateTotalDistance()` is `CalculateTotalDistance(trucks)`.
