/** A delivery point: an integer demand at a position on the plane. */
module DeliveryPoints {

  /** The depot is a point with demand 0; the solver never inspects the coordinates itself. */
  datatype DeliveryPoint = DeliveryPoint(demand: int, x: real, y: real)

  /** The distance between two points. DeliveryPoint.distanceTo is Euclidean floating point;
      the model leaves it uninterpreted, so every fact proved holds for any distance. */
  type Distance = (DeliveryPoint, DeliveryPoint) -> real
}
