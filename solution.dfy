/** Solutions: a fleet of truck values, and the value-level operations the annealing search is
    built from (first-fit placement, the two-position swap, the routed points and the cost). */
module Solutions {
  import opened DeliveryPoints
  import opened Trucks

  type Solution = seq<TruckState>

  function Routes(s: Solution): (rs: seq<seq<DeliveryPoint>>)
    ensures |rs| == |s|
  {
    seq(|s|, k requires 0 <= k < |s| => s[k].route)
  }

  function Capacities(s: Solution): (cs: seq<int>)
    ensures |cs| == |s|
  {
    seq(|s|, k requires 0 <= k < |s| => s[k].capacity)
  }

  /** Every truck has the given capacity. */
  predicate Uniform(s: Solution, capacity: int)
  {
    forall k :: 0 <= k < |s| ==> s[k].capacity == capacity
  }

  predicate AllSynced(s: Solution)
  {
    forall k :: 0 <= k < |s| ==> Synced(s[k])
  }

  /** Every truck that carries anything carries no more than its capacity. An empty truck is
      always acceptable, even when the configured capacity is negative. */
  predicate WithinCapacity(s: Solution)
  {
    forall k :: 0 <= k < |s| ==> s[k].route == [] || Fits(s[k])
  }

  /** The solver's loop of `new Truck(truckCapacity)`, numTrucks times (none when numTrucks <= 0). */
  function Fleet(numTrucks: int, capacity: int): Solution
  {
    if numTrucks <= 0 then [] else Fleet(numTrucks - 1, capacity) + [NewTruck(capacity)]
  }

  lemma {:induction false} FleetSpec(numTrucks: int, capacity: int)
    ensures |Fleet(numTrucks, capacity)| == if numTrucks <= 0 then 0 else numTrucks
    ensures forall k :: 0 <= k < |Fleet(numTrucks, capacity)| ==> Fleet(numTrucks, capacity)[k] == NewTruck(capacity)
    ensures AllSynced(Fleet(numTrucks, capacity)) && WithinCapacity(Fleet(numTrucks, capacity))
    ensures AllPoints(Fleet(numTrucks, capacity)) == multiset{}
  {
    if numTrucks > 0 {
      FleetSpec(numTrucks - 1, capacity);
      RoutesAppend(Fleet(numTrucks - 1, capacity), NewTruck(capacity));
    }
  }

  /** The multiset of every point on every route. */
  function RoutedPoints(rs: seq<seq<DeliveryPoint>>): multiset<DeliveryPoint>
  {
    if rs == [] then multiset{} else RoutedPoints(rs[..|rs| - 1]) + multiset(rs[|rs| - 1])
  }

  function AllPoints(s: Solution): multiset<DeliveryPoint>
  {
    RoutedPoints(Routes(s))
  }

  lemma {:induction false} RoutedPointsUpdate(rs: seq<seq<DeliveryPoint>>, k: nat, r: seq<DeliveryPoint>)
    requires k < |rs|
    ensures RoutedPoints(rs[k := r]) + multiset(rs[k]) == RoutedPoints(rs) + multiset(r)
  {
    var n := |rs|;
    if k == n - 1 {
      assert rs[k := r][..n - 1] == rs[..n - 1];
    } else {
      var front := rs[..n - 1];
      assert rs[k := r][..n - 1] == front[k := r];
      assert rs[k := r][n - 1] == rs[n - 1];
      assert front[k] == rs[k];
      RoutedPointsUpdate(front, k, r);
      calc {
        RoutedPoints(rs[k := r]) + multiset(rs[k]);
        RoutedPoints(front[k := r]) + multiset(rs[n - 1]) + multiset(rs[k]);
        RoutedPoints(front[k := r]) + multiset(front[k]) + multiset(rs[n - 1]);
        RoutedPoints(front) + multiset(r) + multiset(rs[n - 1]);
        RoutedPoints(rs) + multiset(r);
      }
    }
  }

  lemma MultisetCancel(a: multiset<DeliveryPoint>, b: multiset<DeliveryPoint>, c: multiset<DeliveryPoint>)
    requires a + c == b + c
    ensures a == b
  {
    forall y ensures a[y] == b[y] {
      assert (a + c)[y] == (b + c)[y];
    }
  }

  /** The multiset algebra of one write: if replacing a by u turned x into y, and u is a with
      one p1 exchanged for one p2, then y is x with that same exchange. */
  lemma Exchange(y: multiset<DeliveryPoint>, x: multiset<DeliveryPoint>, a: multiset<DeliveryPoint>,
                 u: multiset<DeliveryPoint>, p1: DeliveryPoint, p2: DeliveryPoint)
    requires y + a == x + u
    requires u + multiset{p1} == a + multiset{p2}
    ensures y + multiset{p1} == x + multiset{p2}
  {
    forall q ensures (y + multiset{p1})[q] == (x + multiset{p2})[q] {
      assert (y + a)[q] == (x + u)[q];
      assert (u + multiset{p1})[q] == (a + multiset{p2})[q];
    }
  }

  lemma MultisetUpdate(s: seq<DeliveryPoint>, i: nat, x: DeliveryPoint)
    requires i < |s|
    ensures multiset(s[i := x]) + multiset{s[i]} == multiset(s) + multiset{x}
  {
  }

  lemma RoutesUpdate(s: Solution, k: nat, t: TruckState)
    requires k < |s|
    ensures Routes(s[k := t]) == Routes(s)[k := t.route]
    ensures Capacities(s[k := t]) == Capacities(s)[k := t.capacity]
  {
  }

  lemma RoutesAppend(s: Solution, t: TruckState)
    ensures Routes(s + [t]) == Routes(s) + [t.route]
    ensures AllPoints(s + [t]) == AllPoints(s) + multiset(t.route)
  {
  }

  /** Truck values with equal capacities and routes whose loads are both in step are equal. */
  lemma SyncedDetermined(a: Solution, b: Solution)
    requires Capacities(a) == Capacities(b) && Routes(a) == Routes(b)
    requires AllSynced(a) && AllSynced(b)
    ensures a == b
  {
    assert |a| == |Capacities(a)| == |b|;
    forall k | 0 <= k < |a|
      ensures a[k] == b[k]
    {
      assert Capacities(a)[k] == Capacities(b)[k] && Routes(a)[k] == Routes(b)[k];
    }
  }

  // ---------------------------------------------------------------------------------------------
  // Cost

  /** The total distance of a set of routes: the sum of their closed-tour costs. */
  function TotalCost(rs: seq<seq<DeliveryPoint>>, depot: DeliveryPoint, dist: Distance): real
  {
    if rs == [] then 0.0 else TotalCost(rs[..|rs| - 1], depot, dist) + RouteDistance(rs[|rs| - 1], depot, dist)
  }

  /** calculateTotalDistance's value: it depends on the routes alone, not on the load fields. */
  function TotalDistance(s: Solution, depot: DeliveryPoint, dist: Distance): real
  {
    TotalCost(Routes(s), depot, dist)
  }

  /** A single truck's share of the cost, when only that truck's route changes. */
  lemma {:induction false} TotalCostUpdate(rs: seq<seq<DeliveryPoint>>, k: nat, r: seq<DeliveryPoint>,
                                           depot: DeliveryPoint, dist: Distance)
    requires k < |rs|
    ensures TotalCost(rs[k := r], depot, dist) + RouteDistance(rs[k], depot, dist)
         == TotalCost(rs, depot, dist) + RouteDistance(r, depot, dist)
  {
    var n := |rs|;
    if k == n - 1 {
      assert rs[k := r][..n - 1] == rs[..n - 1];
    } else {
      assert rs[k := r][..n - 1] == rs[..n - 1][k := r];
      TotalCostUpdate(rs[..n - 1], k, r, depot, dist);
    }
  }

  // ---------------------------------------------------------------------------------------------
  // First-fit construction

  /** The index of the first truck that can take dp, or |s| when none can. */
  function FirstFitIndex(s: Solution, dp: DeliveryPoint): (k: nat)
    ensures k <= |s|
    ensures k < |s| ==> CanAdd(s[k], dp)
    ensures forall j :: 0 <= j < k ==> !CanAdd(s[j], dp)
  {
    if s == [] then 0 else if CanAdd(s[0], dp) then 0 else 1 + FirstFitIndex(s[1..], dp)
  }

  /** One pass of the inner loop of generateInitialSolution: add dp to the first truck that can
      take it, or leave the fleet alone. */
  function PlaceOne(s: Solution, dp: DeliveryPoint): Solution
  {
    var k := FirstFitIndex(s, dp);
    if k == |s| then s else s[k := AddPoint(s[k], dp)]
  }

  /** The fleet after the outer loop has placed the points of ps in order. */
  function FirstFit(s: Solution, ps: seq<DeliveryPoint>): Solution
  {
    if ps == [] then s else PlaceOne(FirstFit(s, ps[..|ps| - 1]), ps[|ps| - 1])
  }

  /** The points of ps that no truck could take when their turn came, in order. */
  function Dropped(s: Solution, ps: seq<DeliveryPoint>): seq<DeliveryPoint>
  {
    if ps == [] then []
    else
      var before := FirstFit(s, ps[..|ps| - 1]);
      Dropped(s, ps[..|ps| - 1]) + (if FirstFitIndex(before, ps[|ps| - 1]) == |before| then [ps[|ps| - 1]] else [])
  }

  lemma PlaceOneShape(s: Solution, dp: DeliveryPoint)
    ensures |PlaceOne(s, dp)| == |s| && Capacities(PlaceOne(s, dp)) == Capacities(s)
    ensures forall j :: 0 <= j < |s| ==>
              PlaceOne(s, dp)[j].route == s[j].route + (if j == FirstFitIndex(s, dp) then [dp] else [])
    ensures FirstFitIndex(s, dp) < |s| ==>
              PlaceOne(s, dp)[FirstFitIndex(s, dp)].currentLoad <= PlaceOne(s, dp)[FirstFitIndex(s, dp)].capacity
  {
  }

  lemma PlaceOnePoints(s: Solution, dp: DeliveryPoint)
    ensures AllPoints(PlaceOne(s, dp)) == AllPoints(s) + (if FirstFitIndex(s, dp) < |s| then multiset{dp} else multiset{})
  {
    var k := FirstFitIndex(s, dp);
    if k < |s| {
      var t := AddPoint(s[k], dp);
      AddPointSpec(s[k], dp);
      RoutesUpdate(s, k, t);
      RoutedPointsUpdate(Routes(s), k, t.route);
      assert Routes(s)[k] == s[k].route;
      assert multiset(t.route) == multiset(s[k].route) + multiset{dp};
      MultisetCancel(AllPoints(PlaceOne(s, dp)), AllPoints(s) + multiset{dp}, multiset(s[k].route));
    }
  }

  lemma PlaceOneBookkeeping(s: Solution, dp: DeliveryPoint)
    ensures AllSynced(s) ==> AllSynced(PlaceOne(s, dp))
    ensures AllSynced(s) && WithinCapacity(s) ==> WithinCapacity(PlaceOne(s, dp))
  {
    var k := FirstFitIndex(s, dp);
    if k < |s| {
      AddPointSpec(s[k], dp);
    }
  }

  /** One placement: the chosen truck (the first that can take dp) gets dp appended; every other
      route is unchanged; dp is routed once, or dropped when no truck can take it. */
  lemma PlaceOneSpec(s: Solution, dp: DeliveryPoint)
    ensures |PlaceOne(s, dp)| == |s| && Capacities(PlaceOne(s, dp)) == Capacities(s)
    ensures forall j :: 0 <= j < |s| ==>
              PlaceOne(s, dp)[j].route == s[j].route + (if j == FirstFitIndex(s, dp) then [dp] else [])
    ensures AllPoints(PlaceOne(s, dp)) == AllPoints(s) + (if FirstFitIndex(s, dp) < |s| then multiset{dp} else multiset{})
    ensures FirstFitIndex(s, dp) < |s| ==>
              PlaceOne(s, dp)[FirstFitIndex(s, dp)].currentLoad <= PlaceOne(s, dp)[FirstFitIndex(s, dp)].capacity
    ensures AllSynced(s) ==> AllSynced(PlaceOne(s, dp))
    ensures AllSynced(s) && WithinCapacity(s) ==> WithinCapacity(PlaceOne(s, dp))
  {
    PlaceOneShape(s, dp);
    PlaceOnePoints(s, dp);
    PlaceOneBookkeeping(s, dp);
  }

  lemma {:induction false} FirstFitShape(s: Solution, ps: seq<DeliveryPoint>)
    ensures |FirstFit(s, ps)| == |s| && Capacities(FirstFit(s, ps)) == Capacities(s)
    ensures forall j :: 0 <= j < |s| ==> s[j].route <= FirstFit(s, ps)[j].route
  {
    if ps != [] {
      var n := |ps|;
      var before := FirstFit(s, ps[..n - 1]);
      FirstFitShape(s, ps[..n - 1]);
      PlaceOneShape(before, ps[n - 1]);
      forall j | 0 <= j < |s|
        ensures s[j].route <= FirstFit(s, ps)[j].route
      {
        assert before[j].route <= FirstFit(s, ps)[j].route;
      }
    }
  }

  lemma {:induction false} FirstFitBookkeeping(s: Solution, ps: seq<DeliveryPoint>)
    ensures AllSynced(s) ==> AllSynced(FirstFit(s, ps))
    ensures AllSynced(s) && WithinCapacity(s) ==> WithinCapacity(FirstFit(s, ps))
  {
    if ps != [] {
      var n := |ps|;
      FirstFitBookkeeping(s, ps[..n - 1]);
      PlaceOneBookkeeping(FirstFit(s, ps[..n - 1]), ps[n - 1]);
    }
  }

  lemma {:induction false} FirstFitConserves(s: Solution, ps: seq<DeliveryPoint>)
    ensures AllPoints(FirstFit(s, ps)) + multiset(Dropped(s, ps)) == AllPoints(s) + multiset(ps)
  {
    if ps != [] {
      var n := |ps|;
      var before := FirstFit(s, ps[..n - 1]);
      var dp := ps[n - 1];
      FirstFitConserves(s, ps[..n - 1]);
      PlaceOnePoints(before, dp);
      assert ps == ps[..n - 1] + [dp];
      assert multiset(ps) == multiset(ps[..n - 1]) + multiset{dp};
      if FirstFitIndex(before, dp) == |before| {
        assert multiset(Dropped(s, ps)) == multiset(Dropped(s, ps[..n - 1])) + multiset{dp};
      } else {
        assert Dropped(s, ps) == Dropped(s, ps[..n - 1]) + [];
        assert FirstFit(s, ps) == PlaceOne(before, dp);
        var d := multiset(Dropped(s, ps[..n - 1]));
        calc {
          AllPoints(FirstFit(s, ps)) + multiset(Dropped(s, ps));
          (AllPoints(before) + multiset{dp}) + d;
          (AllPoints(before) + d) + multiset{dp};
          AllPoints(s) + multiset(ps[..n - 1]) + multiset{dp};
        }
      }
    }
  }

  /** First fit keeps the fleet's shape and bookkeeping, routes every point of ps exactly once
      or records it as dropped, and only ever appends to a route. */
  lemma FirstFitSpec(s: Solution, ps: seq<DeliveryPoint>)
    ensures |FirstFit(s, ps)| == |s| && Capacities(FirstFit(s, ps)) == Capacities(s)
    ensures AllSynced(s) ==> AllSynced(FirstFit(s, ps))
    ensures AllSynced(s) && WithinCapacity(s) ==> WithinCapacity(FirstFit(s, ps))
    ensures AllPoints(FirstFit(s, ps)) + multiset(Dropped(s, ps)) == AllPoints(s) + multiset(ps)
    ensures forall j :: 0 <= j < |s| ==> s[j].route <= FirstFit(s, ps)[j].route
  {
    FirstFitShape(s, ps);
    FirstFitBookkeeping(s, ps);
    FirstFitConserves(s, ps);
  }

  /** f lists, in increasing order, the positions of b at which the elements of a occur. */
  ghost predicate Embeds(f: seq<nat>, a: seq<DeliveryPoint>, b: seq<DeliveryPoint>)
  {
    |f| == |a| &&
    (forall i :: 0 <= i < |f| ==> f[i] < |b| && a[i] == b[f[i]]) &&
    (forall i, j :: 0 <= i < j < |f| ==> f[i] < f[j])
  }

  /** a is b with some elements left out and the rest in their order. */
  ghost predicate Subsequence(a: seq<DeliveryPoint>, b: seq<DeliveryPoint>)
  {
    exists f :: Embeds(f, a, b)
  }

  /** An embedding survives a point appended to the order, whether or not the subsequence takes it. */
  lemma EmbedsExtend(f: seq<nat>, a: seq<DeliveryPoint>, b: seq<DeliveryPoint>, x: DeliveryPoint)
    requires Embeds(f, a, b)
    ensures Embeds(f, a, b + [x]) && Embeds(f + [|b|], a + [x], b + [x])
  {
  }

  /** Starting from empty trucks, every route lists its points in the order first fit met them. */
  lemma {:induction false} FirstFitKeepsOrder(s: Solution, ps: seq<DeliveryPoint>)
    requires forall j :: 0 <= j < |s| ==> s[j].route == []
    ensures |FirstFit(s, ps)| == |s|
    ensures forall j :: 0 <= j < |s| ==> Subsequence(FirstFit(s, ps)[j].route, ps)
  {
    FirstFitShape(s, ps);
    if ps == [] {
      forall j | 0 <= j < |s| ensures Subsequence(FirstFit(s, ps)[j].route, ps) {
        assert Embeds([], FirstFit(s, ps)[j].route, ps);
      }
    } else {
      var n := |ps|;
      var before := FirstFit(s, ps[..n - 1]);
      FirstFitKeepsOrder(s, ps[..n - 1]);
      PlaceOneShape(before, ps[n - 1]);
      assert ps == ps[..n - 1] + [ps[n - 1]];
      forall j | 0 <= j < |s| ensures Subsequence(FirstFit(s, ps)[j].route, ps) {
        var f: seq<nat> :| Embeds(f, before[j].route, ps[..n - 1]);
        EmbedsExtend(f, before[j].route, ps[..n - 1], ps[n - 1]);
      }
    }
  }

  // ---------------------------------------------------------------------------------------------
  // The neighbour move

  /** The two writes of generateNeighborSolution: position r1 of route i1 receives the point at
      position r2 of route i2, then position r2 of route i2 receives the old point at r1. When
      i1 == i2 both writes go to the same route. */
  function SwapRoutes(rs: seq<seq<DeliveryPoint>>, i1: nat, r1: nat, i2: nat, r2: nat): seq<seq<DeliveryPoint>>
    requires i1 < |rs| && i2 < |rs| && r1 < |rs[i1]| && r2 < |rs[i2]|
  {
    var p1 := rs[i1][r1];
    var p2 := rs[i2][r2];
    var rs1 := rs[i1 := rs[i1][r1 := p2]];
    rs1[i2 := rs1[i2][r2 := p1]]
  }

  /** Whether the move is made: both routes non-empty, the positions in range, and both trucks'
      loads, with one point exchanged for the other, within their capacities. */
  predicate SwapCommitted(s: Solution, i1: nat, r1: nat, i2: nat, r2: nat)
    requires i1 < |s| && i2 < |s|
  {
    s[i1].route != [] && s[i2].route != [] &&
    r1 < |s[i1].route| && r2 < |s[i2].route| &&
    DemandSum(s[i1].route) - s[i1].route[r1].demand + s[i2].route[r2].demand <= s[i1].capacity &&
    DemandSum(s[i2].route) - s[i2].route[r2].demand + s[i1].route[r1].demand <= s[i2].capacity
  }

  lemma SwapRoutesShape(rs: seq<seq<DeliveryPoint>>, i1: nat, r1: nat, i2: nat, r2: nat)
    requires i1 < |rs| && i2 < |rs| && r1 < |rs[i1]| && r2 < |rs[i2]|
    ensures |SwapRoutes(rs, i1, r1, i2, r2)| == |rs|
    ensures forall k :: 0 <= k < |rs| ==> |SwapRoutes(rs, i1, r1, i2, r2)[k]| == |rs[k]|
    ensures forall k :: 0 <= k < |rs| && k != i1 && k != i2 ==> SwapRoutes(rs, i1, r1, i2, r2)[k] == rs[k]
    ensures i1 != i2 ==>
              SwapRoutes(rs, i1, r1, i2, r2)[i1] == rs[i1][r1 := rs[i2][r2]] &&
              SwapRoutes(rs, i1, r1, i2, r2)[i2] == rs[i2][r2 := rs[i1][r1]]
    ensures i1 == i2 ==> SwapRoutes(rs, i1, r1, i2, r2)[i1] == rs[i1][r1 := rs[i2][r2]][r2 := rs[i1][r1]]
  {
  }

  /** A swap moves points between routes but never adds or loses one. */
  lemma SwapRoutesConserves(rs: seq<seq<DeliveryPoint>>, i1: nat, r1: nat, i2: nat, r2: nat)
    requires i1 < |rs| && i2 < |rs| && r1 < |rs[i1]| && r2 < |rs[i2]|
    ensures RoutedPoints(SwapRoutes(rs, i1, r1, i2, r2)) == RoutedPoints(rs)
  {
    var p1 := rs[i1][r1];
    var p2 := rs[i2][r2];
    var rs1 := rs[i1 := rs[i1][r1 := p2]];
    var rs2 := rs1[i2 := rs1[i2][r2 := p1]];
    assert rs1[i2][r2] == p2;
    assert rs2 == SwapRoutes(rs, i1, r1, i2, r2);
    RoutedPointsUpdate(rs, i1, rs[i1][r1 := p2]);
    MultisetUpdate(rs[i1], r1, p2);
    Exchange(RoutedPoints(rs1), RoutedPoints(rs), multiset(rs[i1]), multiset(rs[i1][r1 := p2]), p1, p2);
    RoutedPointsUpdate(rs1, i2, rs1[i2][r2 := p1]);
    MultisetUpdate(rs1[i2], r2, p1);
    Exchange(RoutedPoints(rs2), RoutedPoints(rs1), multiset(rs1[i2]), multiset(rs1[i2][r2 := p1]), p2, p1);
    MultisetCancel(RoutedPoints(rs2), RoutedPoints(rs), multiset{p2});
  }

  /** How the swap changes each route's demand: by the exchanged difference on the two trucks
      of a cross-truck swap, and not at all inside one route. */
  lemma SwapRoutesDemand(rs: seq<seq<DeliveryPoint>>, i1: nat, r1: nat, i2: nat, r2: nat)
    requires i1 < |rs| && i2 < |rs| && r1 < |rs[i1]| && r2 < |rs[i2]|
    ensures forall k :: 0 <= k < |rs| ==>
              DemandSum(SwapRoutes(rs, i1, r1, i2, r2)[k]) ==
                DemandSum(rs[k]) +
                (if i1 == i2 || (k != i1 && k != i2) then 0
                 else if k == i1 then rs[i2][r2].demand - rs[i1][r1].demand
                 else rs[i1][r1].demand - rs[i2][r2].demand)
  {
    var p1 := rs[i1][r1];
    var p2 := rs[i2][r2];
    DemandSumUpdate(rs[i1], r1, p2);
    if i1 == i2 {
      DemandSumUpdate(rs[i1][r1 := p2], r2, p1);
      assert rs[i1][r1 := p2][r2] == p2;
    } else {
      DemandSumUpdate(rs[i2], r2, p1);
    }
  }

  /** The two writes of generateNeighborSolution on truck values: the routes become
      SwapRoutes of the old routes, and no load field is touched. */
  function WriteSwap(s: Solution, i1: nat, r1: nat, i2: nat, r2: nat): Solution
    requires i1 < |s| && i2 < |s| && r1 < |s[i1].route| && r2 < |s[i2].route|
  {
    var t1 := WriteThroughRoute(s[i1], r1, s[i2].route[r2]);
    var s1 := s[i1 := t1];
    s1[i2 := WriteThroughRoute(s1[i2], r2, s[i1].route[r1])]
  }

  lemma WriteSwapSpec(s: Solution, i1: nat, r1: nat, i2: nat, r2: nat)
    requires i1 < |s| && i2 < |s| && r1 < |s[i1].route| && r2 < |s[i2].route|
    ensures |WriteSwap(s, i1, r1, i2, r2)| == |s|
    ensures Routes(WriteSwap(s, i1, r1, i2, r2)) == SwapRoutes(Routes(s), i1, r1, i2, r2)
    ensures Capacities(WriteSwap(s, i1, r1, i2, r2)) == Capacities(s)
    ensures forall k :: 0 <= k < |s| ==> WriteSwap(s, i1, r1, i2, r2)[k].currentLoad == s[k].currentLoad
    ensures AllPoints(WriteSwap(s, i1, r1, i2, r2)) == AllPoints(s)
  {
    var t1 := WriteThroughRoute(s[i1], r1, s[i2].route[r2]);
    var s1 := s[i1 := t1];
    RoutesUpdate(s, i1, t1);
    RoutesUpdate(s1, i2, WriteThroughRoute(s1[i2], r2, s[i1].route[r1]));
    assert Routes(s)[i1] == s[i1].route && Routes(s)[i2] == s[i2].route;
    SwapRoutesConserves(Routes(s), i1, r1, i2, r2);
  }

  /** Neighbour closure: a committed swap keeps every truck that fitted fitting, and leaves both
      swapped trucks fitting whatever they were before. */
  lemma WriteSwapFits(s: Solution, i1: nat, r1: nat, i2: nat, r2: nat)
    requires i1 < |s| && i2 < |s|
    requires SwapCommitted(s, i1, r1, i2, r2)
    ensures forall k :: 0 <= k < |s| && Fits(s[k]) ==> Fits(WriteSwap(s, i1, r1, i2, r2)[k])
    ensures Fits(WriteSwap(s, i1, r1, i2, r2)[i1]) && Fits(WriteSwap(s, i1, r1, i2, r2)[i2])
  {
    var w := WriteSwap(s, i1, r1, i2, r2);
    var rs := Routes(s);
    WriteSwapSpec(s, i1, r1, i2, r2);
    SwapRoutesDemand(rs, i1, r1, i2, r2);
    forall k | 0 <= k < |s|
      ensures w[k].route == SwapRoutes(rs, i1, r1, i2, r2)[k] && w[k].capacity == s[k].capacity && rs[k] == s[k].route
    {
      assert Routes(w)[k] == w[k].route && Capacities(w)[k] == Capacities(s)[k];
    }
  }

  /** How many points each truck carries. */
  function RouteLengths(s: Solution): (ls: seq<nat>)
    ensures |ls| == |s| && forall k :: 0 <= k < |s| ==> ls[k] == |s[k].route|
  {
    if s == [] then [] else RouteLengths(s[..|s| - 1]) + [|s[|s| - 1].route|]
  }

  /** n is a neighbour of s: the same fleet, the same number of points on every truck, the same
      routed points, and routes that are a committed two-position swap of s's routes or s's routes
      themselves. */
  ghost predicate Neighbour(s: Solution, n: Solution)
  {
    |n| == |s| && Capacities(n) == Capacities(s) && RouteLengths(n) == RouteLengths(s) &&
    AllPoints(n) == AllPoints(s) &&
    exists i1: nat, r1: nat, i2: nat, r2: nat :: i1 < |s| && i2 < |s| &&
      Routes(n) == if SwapCommitted(s, i1, r1, i2, r2) then SwapRoutes(Routes(s), i1, r1, i2, r2) else Routes(s)
  }

  /** Trucks with the same routes carry the same number of points. */
  lemma RoutesDetermineLengths(a: Solution, b: Solution)
    requires Routes(a) == Routes(b)
    ensures RouteLengths(a) == RouteLengths(b)
  {
    assert |a| == |Routes(a)| == |Routes(b)| == |b|;
    forall k | 0 <= k < |a| ensures |a[k].route| == |b[k].route| {
      assert Routes(a)[k] == Routes(b)[k];
    }
  }
}
