// Choice of the map's zoom level from the search radius.
module Zoom {

  /** The radius thresholds, in metres, at which the zoom level steps down by one. */
  const Thresholds: seq<real> := [1700.0, 5000.0, 10000.0, 20000.0]

  /** Zoom level for a search radius in metres: 14 for small radii, down to 10
      for radii of 20 km and more. Every threshold comparison is strict. */
  function ZoomLevel(radius: real): (zoom: int)
    ensures 10 <= zoom <= 14
  {
    if radius < 1700.0 then 14
    else if radius < 5000.0 then 13
    else if radius < 10000.0 then 12
    else if radius < 20000.0 then 11
    else 10
  }

  /** The number of thresholds in `ts` that `radius` has reached. */
  function Reached(radius: real, ts: seq<real>): (n: nat)
    ensures n <= |ts|
  {
    if ts == [] then 0
    else (if ts[0] <= radius then 1 else 0) + Reached(radius, ts[1..])
  }

  /** Reaching a threshold is monotone: a larger radius reaches at least as many. */
  lemma {:induction false} ReachedMonotone(r1: real, r2: real, ts: seq<real>)
    requires r1 <= r2
    ensures Reached(r1, ts) <= Reached(r2, ts)
  {
    if ts != [] {
      ReachedMonotone(r1, r2, ts[1..]);
    }
  }

  /** The zoom level is 14 less one per threshold the radius has reached. */
  lemma ZoomCountsThresholds(radius: real)
    ensures ZoomLevel(radius) == 14 - Reached(radius, Thresholds)
  {
    var t1, t2, t3 := Thresholds[1..], Thresholds[2..], Thresholds[3..];
    assert t1[1..] == t2 && t2[1..] == t3 && t3[1..] == [];
    assert Reached(radius, t3) == if 20000.0 <= radius then 1 else 0;
    assert Reached(radius, t2) == (if 10000.0 <= radius then 1 else 0) + Reached(radius, t3);
    assert Reached(radius, t1) == (if 5000.0 <= radius then 1 else 0) + Reached(radius, t2);
  }

  /** The five bands of radii and their zoom levels, each bound strict from above. */
  lemma ZoomBands(radius: real)
    ensures ZoomLevel(radius) == 14 <==> radius < 1700.0
    ensures ZoomLevel(radius) == 13 <==> 1700.0 <= radius < 5000.0
    ensures ZoomLevel(radius) == 12 <==> 5000.0 <= radius < 10000.0
    ensures ZoomLevel(radius) == 11 <==> 10000.0 <= radius < 20000.0
    ensures ZoomLevel(radius) == 10 <==> 20000.0 <= radius
  {
  }

  /** A wider search never zooms in further. */
  lemma ZoomMonotone(r1: real, r2: real)
    requires r1 <= r2
    ensures ZoomLevel(r1) >= ZoomLevel(r2)
  {
    ZoomCountsThresholds(r1);
    ZoomCountsThresholds(r2);
    ReachedMonotone(r1, r2, Thresholds);
  }
}
