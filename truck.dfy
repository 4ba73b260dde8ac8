/** A truck: a capacity, a running load and an ordered route. */
module Trucks {
  import opened DeliveryPoints

  /** The sum of the demands of a route, left to right. */
  function DemandSum(route: seq<DeliveryPoint>): int
  {
    if route == [] then 0 else route[0].demand + DemandSum(route[1..])
  }

  lemma {:induction false} DemandSumAppend(route: seq<DeliveryPoint>, dp: DeliveryPoint)
    ensures DemandSum(route + [dp]) == DemandSum(route) + dp.demand
  {
    if route == [] {
      assert [] + [dp] == [dp];
    } else {
      assert (route + [dp])[1..] == route[1..] + [dp];
      DemandSumAppend(route[1..], dp);
    }
  }

  /** Replacing one point changes the sum by the difference of the two demands. */
  lemma {:induction false} DemandSumUpdate(route: seq<DeliveryPoint>, i: nat, dp: DeliveryPoint)
    requires i < |route|
    ensures DemandSum(route[i := dp]) == DemandSum(route) - route[i].demand + dp.demand
  {
    if i == 0 {
      assert route[i := dp][1..] == route[1..];
    } else {
      assert route[i := dp][1..] == route[1..][i - 1 := dp];
      DemandSumUpdate(route[1..], i - 1, dp);
    }
  }

  /** The value of a truck's three fields. */
  datatype TruckState = TruckState(capacity: int, currentLoad: int, route: seq<DeliveryPoint>)

  /** The bookkeeping is in step: the load is the sum of the route's demands. */
  predicate Synced(t: TruckState)
  {
    t.currentLoad == DemandSum(t.route)
  }

  /** The route's demand is within the capacity (whatever the load field says). */
  predicate Fits(t: TruckState)
  {
    DemandSum(t.route) <= t.capacity
  }

  /** A freshly constructed truck. */
  function NewTruck(capacity: int): TruckState
  {
    TruckState(capacity, 0, [])
  }

  predicate CanAdd(t: TruckState, dp: DeliveryPoint)
  {
    t.currentLoad + dp.demand <= t.capacity
  }

  /** The guarded append of addDeliveryPoint. */
  function AddPoint(t: TruckState, dp: DeliveryPoint): TruckState
  {
    if CanAdd(t, dp) then t.(route := t.route + [dp], currentLoad := t.currentLoad + dp.demand) else t
  }

  /** setRoute: a new route and a load recomputed from it. */
  function WithRoute(t: TruckState, route: seq<DeliveryPoint>): TruckState
  {
    t.(route := route, currentLoad := DemandSum(route))
  }

  /** A write into the list that getRoute() hands out: the route changes in place and
      the load field is not told. */
  function WriteThroughRoute(t: TruckState, i: nat, dp: DeliveryPoint): TruckState
    requires i < |t.route|
  {
    t.(route := t.route[i := dp])
  }

  /** What addDeliveryPoint does in each case, and that it keeps the load in step. */
  lemma AddPointSpec(t: TruckState, dp: DeliveryPoint)
    ensures CanAdd(t, dp) <==> t.currentLoad + dp.demand <= t.capacity
    ensures CanAdd(t, dp) ==>
              AddPoint(t, dp).route == t.route + [dp] &&
              AddPoint(t, dp).currentLoad == t.currentLoad + dp.demand &&
              AddPoint(t, dp).currentLoad <= t.capacity
    ensures !CanAdd(t, dp) ==> AddPoint(t, dp) == t
    ensures AddPoint(t, dp).capacity == t.capacity
    ensures Synced(t) ==> Synced(AddPoint(t, dp))
  {
    DemandSumAppend(t.route, dp);
  }

  /** setRoute resynchronises the load, whatever the truck's state was. */
  lemma WithRouteSpec(t: TruckState, route: seq<DeliveryPoint>)
    ensures Synced(WithRoute(t, route))
    ensures WithRoute(t, route).route == route && WithRoute(t, route).capacity == t.capacity
    ensures Synced(t) ==> WithRoute(t, t.route) == t
  {
  }

  /** Writing through getRoute() leaves the load stale: if the demands differ, the truck
      is out of step until setRoute is called again. */
  lemma WriteThroughDesyncs(t: TruckState, i: nat, dp: DeliveryPoint)
    requires i < |t.route| && Synced(t) && t.route[i].demand != dp.demand
    ensures !Synced(WriteThroughRoute(t, i, dp))
    ensures Synced(WithRoute(WriteThroughRoute(t, i, dp), WriteThroughRoute(t, i, dp).route))
  {
    DemandSumUpdate(t.route, i, dp);
  }

  /** The sum of the distances between consecutive points of a tour, accumulated from the front. */
  function PathCost(tour: seq<DeliveryPoint>, dist: Distance): real
  {
    if |tour| < 2 then 0.0 else PathCost(tour[..|tour| - 1], dist) + dist(tour[|tour| - 2], tour[|tour| - 1])
  }

  /** The cost of a route: the closed tour depot, route..., depot. */
  function RouteDistance(route: seq<DeliveryPoint>, depot: DeliveryPoint, dist: Distance): real
  {
    PathCost([depot] + route + [depot], dist)
  }

  /** The tour cost read from the other end: the first leg plus the rest. */
  lemma {:induction false} PathCostCons(a: DeliveryPoint, tour: seq<DeliveryPoint>, dist: Distance)
    ensures PathCost([a] + tour, dist) == if tour == [] then 0.0 else dist(a, tour[0]) + PathCost(tour, dist)
  {
    if |tour| >= 2 {
      var n := |tour|;
      assert ([a] + tour)[..n] == [a] + tour[..n - 1];
      PathCostCons(a, tour[..n - 1], dist);
    } else if |tour| == 1 {
      assert ([a] + tour)[..1] == [a];
    }
  }

  /** An empty route still charges the depot-to-depot leg. */
  lemma RouteDistanceEmpty(depot: DeliveryPoint, dist: Distance)
    ensures RouteDistance([], depot, dist) == dist(depot, depot)
  {
    var tour := [depot] + [] + [depot];
    assert tour == [depot, depot] && tour[..1] == [depot];
    assert PathCost(tour[..1], dist) == 0.0;
  }

  /** A route's cost is the leg out to its first point, then the legs along it, then the leg back. */
  lemma RouteDistanceCons(p: DeliveryPoint, route: seq<DeliveryPoint>, depot: DeliveryPoint, dist: Distance)
    ensures RouteDistance([p] + route, depot, dist) == dist(depot, p) + PathCost([p] + route + [depot], dist)
  {
    assert [depot] + ([p] + route) + [depot] == [depot] + ([p] + route + [depot]);
    PathCostCons(depot, [p] + route + [depot], dist);
  }

  /** calculateRouteDistance: walk the route, summing the leg from the previous point. The loop
      lives here, on a route value, because the annealer holds trucks as values; the class method
      below runs it on the object's own route. */
  method ComputeRouteDistance(route: seq<DeliveryPoint>, depot: DeliveryPoint, dist: Distance)
    returns (totalDistance: real)
    ensures totalDistance == RouteDistance(route, depot, dist)
  {
    ghost var tour := [depot] + route;
    totalDistance := 0.0;
    var previous := depot;
    var i := 0;
    while i < |route|
      invariant 0 <= i <= |route|
      invariant previous == tour[i]
      invariant totalDistance == PathCost(tour[..i + 1], dist)
    {
      assert tour[..i + 2][..i + 1] == tour[..i + 1];
      totalDistance := totalDistance + dist(previous, route[i]);
      previous := route[i];
      i := i + 1;
    }
    assert tour[..i + 1] == tour;
    assert ([depot] + route + [depot])[..|tour|] == tour;
    totalDistance := totalDistance + dist(previous, depot);
  }

  class Truck {
    var capacity: int
    var currentLoad: int
    var route: seq<DeliveryPoint>

    /** The truck's fields as a value. */
    function State(): TruckState
      reads this
    {
      TruckState(capacity, currentLoad, route)
    }

    constructor (capacity: int)
      ensures State() == NewTruck(capacity)
    {
      this.capacity := capacity;
      currentLoad := 0;
      route := [];
    }

    method SetRoute(r: seq<DeliveryPoint>)
      modifies this
      ensures State() == WithRoute(old(State()), r)
      ensures route == r && currentLoad == DemandSum(r) && capacity == old(capacity)
    {
      route := r;
      currentLoad := DemandSum(r);
    }

    method CanAddDeliveryPoint(dp: DeliveryPoint) returns (b: bool)
      ensures b <==> currentLoad + dp.demand <= capacity
    {
      b := currentLoad + dp.demand <= capacity;
    }

    method AddDeliveryPoint(dp: DeliveryPoint)
      modifies this
      ensures State() == AddPoint(old(State()), dp)
      ensures old(CanAdd(State(), dp)) ==> route == old(route) + [dp] && currentLoad <= capacity
      ensures !old(CanAdd(State(), dp)) ==> unchanged(this)
      ensures old(Synced(State())) ==> Synced(State())
    {
      AddPointSpec(State(), dp);
      var ok := CanAddDeliveryPoint(dp);
      if ok {
        route := route + [dp];
        currentLoad := currentLoad + dp.demand;
      }
    }

    /** calculateRouteDistance on this truck: the loop above over the route field. */
    method CalculateRouteDistance(depot: DeliveryPoint, dist: Distance) returns (totalDistance: real)
      ensures totalDistance == RouteDistance(route, depot, dist)
    {
      totalDistance := ComputeRouteDistance(route, depot, dist);
    }
  }
}
