/** The simulated-annealing solver: first-fit construction, then a search over two-position
    swaps that keeps the best solution seen. Solutions are values; randomness is a choice the
    verifier must accept whatever it is. */
module Annealing {
  import opened DeliveryPoints
  import opened Trucks
  import opened Solutions

  /** How solve ends: normally, or with the IllegalArgumentException that Random.nextInt(0)
      throws when the fleet is empty and at least one iteration runs. */
  datatype Outcome = Normal | IllegalArgumentException

  class SimulatedAnnealing {
    var deliveryPoints: seq<DeliveryPoint>
    const depot: DeliveryPoint
    var trucks: Solution
    const initialTemperature: real
    var currentDistance: real
    var currentSolution: Solution
    var bestSolution: Solution
    var bestDistance: real
    const iterations: int
    var firstIteration: bool
    const dist: Distance

    // public view: the fleet's size and capacity, the points first fit routed and those it dropped
    ghost const numTrucks: nat
    ghost const truckCapacity: int
    ghost var placed: multiset<DeliveryPoint>
    ghost var dropped: seq<DeliveryPoint>

    /** A solution of this solver: the configured fleet, loads within capacity, and exactly the
        points that first fit routed. */
    ghost predicate Shaped(s: Solution)
      reads this
    {
      |s| == numTrucks && Uniform(s, truckCapacity) && WithinCapacity(s) && AllPoints(s) == placed
    }

    /** What the search keeps true between iterations. */
    ghost predicate SearchInv()
      reads this
    {
      Shaped(currentSolution) && Shaped(bestSolution) && AllSynced(bestSolution) &&
      currentDistance == TotalDistance(currentSolution, depot, dist) &&
      bestDistance == TotalDistance(bestSolution, depot, dist) &&
      bestDistance <= currentDistance &&
      RouteLengths(bestSolution) == RouteLengths(currentSolution)
    }

    ghost predicate Valid()
      reads this
    {
      Shaped(trucks) && AllSynced(trucks) &&
      (firstIteration ==> trucks == Fleet(numTrucks, truckCapacity) && placed == multiset{}) &&
      (!firstIteration ==>
         SearchInv() && bestSolution == trucks &&
         placed + multiset(dropped) == multiset(deliveryPoints))
    }

    constructor (deliveryPoints: seq<DeliveryPoint>, depot: DeliveryPoint, numTrucks: int, truckCapacity: int,
                 initialTemperature: real, iterations: int, dist: Distance)
      ensures Valid() && firstIteration
      ensures this.deliveryPoints == deliveryPoints && this.depot == depot && this.dist == dist
      ensures this.initialTemperature == initialTemperature && this.iterations == iterations
      ensures trucks == Fleet(numTrucks, truckCapacity)
      ensures |trucks| == this.numTrucks == (if numTrucks <= 0 then 0 else numTrucks)
      ensures forall k :: 0 <= k < |trucks| ==> trucks[k] == NewTruck(truckCapacity)
    {
      var ts: Solution := [];
      var i := 0;
      while i < numTrucks
        invariant if numTrucks < 0 then i == 0 else 0 <= i <= numTrucks
        invariant ts == Fleet(i, truckCapacity)
      {
        ts := ts + [NewTruck(truckCapacity)];
        i := i + 1;
      }
      FleetSpec(i, truckCapacity);
      assert ts == Fleet(numTrucks, truckCapacity);
      this.deliveryPoints := deliveryPoints;
      this.depot := depot;
      trucks := ts;
      this.initialTemperature := initialTemperature;
      this.iterations := iterations;
      this.dist := dist;
      currentDistance, bestDistance := 0.0, 0.0;
      currentSolution, bestSolution := [], [];
      firstIteration := true;
      this.numTrucks := i;
      this.truckCapacity := truckCapacity;
      placed, dropped := multiset{}, [];
    }

    /** Build the initial solution, once: the first call shuffles the points (the shuffled order
        is the parameter), places them first fit, and makes that solution both current and best.
        Every later call changes nothing. */
    method Initialize(shuffled: seq<DeliveryPoint>)
      requires Valid()
      requires multiset(shuffled) == multiset(deliveryPoints)
      modifies this
      ensures Valid() && !firstIteration
      ensures old(firstIteration) ==>
                deliveryPoints == shuffled &&
                trucks == FirstFit(Fleet(numTrucks, truckCapacity), shuffled) &&
                dropped == Dropped(Fleet(numTrucks, truckCapacity), shuffled) &&
                currentSolution == trucks && bestSolution == trucks &&
                currentDistance == TotalDistance(trucks, depot, dist) && bestDistance == currentDistance
      ensures !old(firstIteration) ==> unchanged(this)
    {
      if firstIteration {
        ghost var fleet := trucks;
        GenerateInitialSolution(shuffled);
        FleetSpec(numTrucks, truckCapacity);
        FirstFitSpec(fleet, shuffled);
        forall k | 0 <= k < |trucks| ensures trucks[k].capacity == truckCapacity {
          assert Capacities(trucks)[k] == Capacities(fleet)[k];
        }
        currentDistance := CalculateTotalDistance(trucks);
        currentSolution := CloneTrucks(trucks);
        bestDistance := currentDistance;
        bestSolution := currentSolution;
      }
      firstIteration := false;
    }

    /** First fit: each point, in shuffled order, goes to the first truck that can take it. */
    method GenerateInitialSolution(shuffled: seq<DeliveryPoint>)
      modifies this`deliveryPoints, this`trucks, this`placed, this`dropped
      ensures deliveryPoints == shuffled
      ensures trucks == FirstFit(old(trucks), shuffled)
      ensures placed == AllPoints(trucks) && dropped == Dropped(old(trucks), shuffled)
    {
      deliveryPoints := shuffled;
      var n := 0;
      while n < |deliveryPoints|
        invariant 0 <= n <= |deliveryPoints| && deliveryPoints == shuffled
        invariant trucks == FirstFit(old(trucks), deliveryPoints[..n])
      {
        var dp := deliveryPoints[n];
        ghost var before := trucks;
        var j := 0;
        while j < |trucks|
          invariant 0 <= j <= |trucks| && trucks == before
          invariant forall k :: 0 <= k < j ==> !CanAdd(trucks[k], dp)
        {
          if CanAdd(trucks[j], dp) {
            trucks := trucks[j := AddPoint(trucks[j], dp)];
            break;
          }
          j := j + 1;
        }
        assert trucks == PlaceOne(before, dp);
        assert deliveryPoints[..n + 1][..n] == deliveryPoints[..n];
        n := n + 1;
      }
      assert deliveryPoints[..n] == shuffled;
      placed := AllPoints(trucks);
      dropped := Dropped(old(trucks), shuffled);
    }

    /** Run the configured number of iterations (a no-op before Initialize), then publish a
        clone of the best solution as the solver's trucks. */
    method Solve() returns (outcome: Outcome)
      requires Valid()
      modifies this`trucks, this`currentSolution, this`currentDistance, this`bestSolution, this`bestDistance
      ensures Valid()
      ensures outcome == IllegalArgumentException <==> !old(firstIteration) && iterations > 0 && numTrucks == 0
      ensures old(firstIteration) || outcome == IllegalArgumentException ==> unchanged(this)
      ensures firstIteration == old(firstIteration) && deliveryPoints == old(deliveryPoints)
      ensures placed == old(placed) && dropped == old(dropped)
      ensures bestDistance <= old(bestDistance)
      ensures !firstIteration ==> trucks == bestSolution && TotalDistance(trucks, depot, dist) == bestDistance
      ensures RouteLengths(trucks) == RouteLengths(old(trucks))
    {
      outcome := Normal;
      if !firstIteration {
        if iterations > 0 && |currentSolution| == 0 {
          outcome := IllegalArgumentException;
          return;
        }
        RunIterations();
        trucks := CloneTrucks(bestSolution);
        assert trucks == bestSolution;
      }
    }

    /** The for loop of solve: the configured number of iterations (none when it is not
        positive). */
    method RunIterations()
      requires SearchInv() && (iterations > 0 ==> numTrucks > 0)
      modifies this`currentSolution, this`currentDistance, this`bestSolution, this`bestDistance
      ensures SearchInv()
      ensures bestDistance <= old(bestDistance)
      ensures RouteLengths(currentSolution) == old(RouteLengths(currentSolution))
    {
      var i := 0;
      while i < iterations
        invariant SearchInv()
        invariant bestDistance <= old(bestDistance)
        invariant RouteLengths(currentSolution) == old(RouteLengths(currentSolution))
      {
        var next, nextDistance := Step();
        i := i + 1;
      }
    }

    /** One iteration of solve's loop: draw a neighbour of the current solution, accept it if it
        is strictly cheaper (or if the uphill draw says so), and keep the best solution seen. */
    method Step() returns (next: Solution, nextDistance: real)
      requires SearchInv() && numTrucks > 0
      modifies this`currentSolution, this`currentDistance, this`bestSolution, this`bestDistance
      ensures SearchInv()
      ensures Shaped(next) && nextDistance == TotalDistance(next, depot, dist)
      ensures Neighbour(old(currentSolution), next)
      ensures nextDistance < old(currentDistance) ==> currentSolution == next && currentDistance == nextDistance
      ensures (currentSolution == old(currentSolution) && currentDistance == old(currentDistance)) ||
              (currentSolution == next && currentDistance == nextDistance)
      ensures bestDistance == if nextDistance < old(bestDistance) then nextDistance else old(bestDistance)
      ensures bestDistance < old(bestDistance) ==> Routes(bestSolution) == Routes(next)
      ensures bestDistance == old(bestDistance) ==> bestSolution == old(bestSolution)
    {
      var i1 :| 0 <= i1 < |currentSolution|;
      var i2 :| 0 <= i2 < |currentSolution|;
      var r1: nat, r2: nat := 0, 0;
      if currentSolution[i1].route != [] && currentSolution[i2].route != [] {
        r1 :| r1 < |currentSolution[i1].route|;
        r2 :| r2 < |currentSolution[i2].route|;
      }
      next := GenerateNeighborSolution(currentSolution, i1, i2, r1, r2);
      assert Uniform(next, truckCapacity) by {
        forall k | 0 <= k < |next| ensures next[k].capacity == truckCapacity {
          assert Capacities(next)[k] == Capacities(currentSolution)[k];
        }
      }
      nextDistance := CalculateTotalDistance(next);
      Accept(next, nextDistance);
    }

    /** The acceptance rule of solve's loop: a strictly cheaper candidate always becomes current,
        a costlier or equal one only when the uphill draw says so, and a candidate cheaper than
        the best seen is cloned into the best solution. */
    method Accept(next: Solution, nextDistance: real)
      requires SearchInv() && Shaped(next) && nextDistance == TotalDistance(next, depot, dist)
      requires RouteLengths(next) == RouteLengths(currentSolution)
      modifies this`currentSolution, this`currentDistance, this`bestSolution, this`bestDistance
      ensures SearchInv()
      ensures nextDistance < old(currentDistance) ==> currentSolution == next && currentDistance == nextDistance
      ensures (currentSolution == old(currentSolution) && currentDistance == old(currentDistance)) ||
              (currentSolution == next && currentDistance == nextDistance)
      ensures bestDistance == if nextDistance < old(bestDistance) then nextDistance else old(bestDistance)
      ensures bestDistance < old(bestDistance) ==> Routes(bestSolution) == Routes(next)
      ensures bestDistance == old(bestDistance) ==> bestSolution == old(bestSolution)
    {
      var difference := nextDistance - currentDistance;
      if difference < 0.0 {
        currentSolution := next;
        currentDistance := nextDistance;
        if bestDistance > currentDistance {
          bestSolution := CloneTrucks(currentSolution);
          bestDistance := currentDistance;
          CloneKeepsShape(currentSolution, bestSolution);
          RoutesDetermineLengths(bestSolution, currentSolution);
        }
      } else {
        var uphill: bool :| true;
        if uphill {
          currentSolution := next;
          currentDistance := nextDistance;
        }
      }
    }

    /** A clone is a solution of this solver whenever the original is. */
    lemma CloneKeepsShape(s: Solution, c: Solution)
      requires Shaped(s) && Capacities(c) == Capacities(s) && Routes(c) == Routes(s)
      ensures Shaped(c) && TotalDistance(c, depot, dist) == TotalDistance(s, depot, dist)
    {
      forall k | 0 <= k < |c| ensures c[k].capacity == s[k].capacity && c[k].route == s[k].route {
        assert Capacities(c)[k] == Capacities(s)[k] && Routes(c)[k] == Routes(s)[k];
      }
    }

    /** generateNeighborSolution: clone, pick two trucks and a position in each, and exchange the
        two points if both trucks' loads stay within capacity. The writes go through the routes,
        so the clone's loads are left as they were before the exchange. */
    method GenerateNeighborSolution(ts: Solution, i1: nat, i2: nat, r1: nat, r2: nat) returns (newSolution: Solution)
      requires i1 < |ts| && i2 < |ts|
      requires ts[i1].route != [] && ts[i2].route != [] ==> r1 < |ts[i1].route| && r2 < |ts[i2].route|
      ensures |newSolution| == |ts| && Capacities(newSolution) == Capacities(ts)
      ensures forall k :: 0 <= k < |ts| ==>
                |newSolution[k].route| == |ts[k].route| && newSolution[k].currentLoad == DemandSum(ts[k].route)
      ensures Routes(newSolution) ==
                if SwapCommitted(ts, i1, r1, i2, r2) then SwapRoutes(Routes(ts), i1, r1, i2, r2) else Routes(ts)
      ensures AllPoints(newSolution) == AllPoints(ts)
      ensures forall k :: 0 <= k < |ts| && Fits(ts[k]) ==> Fits(newSolution[k])
      ensures SwapCommitted(ts, i1, r1, i2, r2) ==> Fits(newSolution[i1]) && Fits(newSolution[i2])
      ensures WithinCapacity(ts) ==> WithinCapacity(newSolution)
      ensures !SwapCommitted(ts, i1, r1, i2, r2) ==> TotalDistance(newSolution, depot, dist) == TotalDistance(ts, depot, dist)
      ensures Neighbour(ts, newSolution)
    {
      newSolution := CloneTrucks(ts);
      ghost var clone := newSolution;
      forall k | 0 <= k < |ts|
        ensures clone[k].route == ts[k].route && clone[k].capacity == ts[k].capacity
        ensures clone[k].currentLoad == DemandSum(ts[k].route)
      {
        assert Routes(clone)[k] == Routes(ts)[k] && Capacities(clone)[k] == Capacities(ts)[k];
      }
      assert SwapCommitted(clone, i1, r1, i2, r2) == SwapCommitted(ts, i1, r1, i2, r2);
      if newSolution[i1].route != [] && newSolution[i2].route != [] {
        var dp1 := newSolution[i1].route[r1];
        var dp2 := newSolution[i2].route[r2];
        if newSolution[i1].currentLoad - dp1.demand + dp2.demand <= newSolution[i1].capacity &&
           newSolution[i2].currentLoad - dp2.demand + dp1.demand <= newSolution[i2].capacity {
          newSolution := newSolution[i1 := WriteThroughRoute(newSolution[i1], r1, dp2)];
          newSolution := newSolution[i2 := WriteThroughRoute(newSolution[i2], r2, dp1)];
          assert newSolution == WriteSwap(clone, i1, r1, i2, r2);
          WriteSwapSpec(clone, i1, r1, i2, r2);
          WriteSwapFits(clone, i1, r1, i2, r2);
        }
      }
    }

    /** cloneTrucks: a new truck per truck, with the same capacity and a copy of the route given
        to setRoute, so that every clone's load is recomputed from its route. */
    method CloneTrucks(ts: Solution) returns (clonedTrucks: Solution)
      ensures |clonedTrucks| == |ts|
      ensures Routes(clonedTrucks) == Routes(ts) && Capacities(clonedTrucks) == Capacities(ts)
      ensures AllSynced(clonedTrucks)
      ensures AllPoints(clonedTrucks) == AllPoints(ts)
      ensures AllSynced(ts) ==> clonedTrucks == ts
    {
      clonedTrucks := [];
      var i := 0;
      while i < |ts|
        invariant 0 <= i <= |ts| && |clonedTrucks| == i
        invariant forall k :: 0 <= k < i ==> clonedTrucks[k] == WithRoute(NewTruck(ts[k].capacity), ts[k].route)
      {
        var clonedTruck := NewTruck(ts[i].capacity);
        clonedTruck := WithRoute(clonedTruck, ts[i].route);
        clonedTrucks := clonedTrucks + [clonedTruck];
        i := i + 1;
      }
      assert Routes(clonedTrucks) == Routes(ts);
      assert Capacities(clonedTrucks) == Capacities(ts);
      if AllSynced(ts) {
        SyncedDetermined(clonedTrucks, ts);
      }
    }

    /** calculateTotalDistance: the sum of the trucks' route distances from the depot. */
    method CalculateTotalDistance(ts: Solution) returns (totalDistance: real)
      ensures totalDistance == TotalDistance(ts, depot, dist)
    {
      ghost var rs := Routes(ts);
      totalDistance := 0.0;
      var i := 0;
      while i < |ts|
        invariant 0 <= i <= |ts|
        invariant totalDistance == TotalCost(rs[..i], depot, dist)
      {
        var routeDistance := ComputeRouteDistance(ts[i].route, depot, dist);
        assert rs[..i + 1][..i] == rs[..i] && rs[i] == ts[i].route;
        totalDistance := totalDistance + routeDistance;
        i := i + 1;
      }
      assert rs[..i] == rs;
    }

    /** getSolution: the solver's trucks, which after solve are the best solution found. */
    method GetSolution() returns (solution: Solution)
      requires Valid()
      ensures solution == trucks
      ensures |solution| == numTrucks && Uniform(solution, truckCapacity)
      ensures AllSynced(solution) && WithinCapacity(solution) && AllPoints(solution) == placed
      ensures firstIteration ==> solution == Fleet(numTrucks, truckCapacity)
      ensures !firstIteration ==> solution == bestSolution && TotalDistance(solution, depot, dist) == bestDistance
    {
      solution := trucks;
    }
  }
}
