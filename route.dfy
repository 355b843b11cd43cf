/**
 * The tracking session record and its route accumulator: appending a
 * location pushes the sample onto `route` and adds the leg from the
 * previous last point to `totalDistance`. The Haversine distance itself
 * (`calculateDistance`) is a parameter of the model, so the facts proved
 * here hold whatever that function returns.
 */
module Route {
  import opened Common

  /** `calculateDistance(lat1, lng1, lat2, lng2)`, in meters. */
  type Distance = (real, real, real, real) -> real

  datatype Session = Session(
    id: string,
    employeeId: string,
    startTime: Millis,
    startLocation: Location,
    route: seq<Location>,
    totalDistance: real,
    status: string,
    endTime: Option<Millis>,
    duration: Option<int>)

  /** The leg from `a` to `b`: the distance function applied to their coordinates. */
  function Leg(dist: Distance, a: Location, b: Location): real {
    dist(a.lat, a.lng, b.lat, b.lng)
  }

  /**
   * The length of a polyline: its legs added up from the first to the last,
   * the same additions in the same order as the running total performs.
   */
  function PathLength(route: seq<Location>, dist: Distance): real {
    if |route| < 2 then 0.0
    else PathLength(route[..|route| - 1], dist) + Leg(dist, route[|route| - 2], route[|route| - 1])
  }

  /** The same sum taken pair by pair from the front: Leg(p0, p1) + Leg(p1, p2) + ... */
  function LegSum(route: seq<Location>, dist: Distance): real {
    if |route| < 2 then 0.0 else Leg(dist, route[0], route[1]) + LegSum(route[1..], dist)
  }

  /** Adding the legs in travel order and pair by pair from the front agree. */
  lemma {:induction false} PathLengthIsLegSum(route: seq<Location>, dist: Distance)
    ensures PathLength(route, dist) == LegSum(route, dist)
    decreases |route|
  {
    if |route| >= 3 {
      var n := |route|;
      PathLengthIsLegSum(route[..n - 1], dist);
      PathLengthIsLegSum(route[1..], dist);
      PathLengthIsLegSum(route[1..][..n - 2], dist);
      assert route[..n - 1][1..] == route[1..][..n - 2];
      assert route[..n - 1][0] == route[0] && route[..n - 1][1] == route[1];
      assert LegSum(route[..n - 1], dist) == Leg(dist, route[0], route[1]) + LegSum(route[1..][..n - 2], dist);
      assert PathLength(route[1..], dist) == PathLength(route[1..][..n - 2], dist) + Leg(dist, route[n - 2], route[n - 1]);
    } else if |route| == 2 {
      assert route[..1][..0] == [];
      assert PathLength(route[..1], dist) == 0.0;
    }
  }

  /** `{...location, timestamp: location.timestamp || now}`. */
  function WithTimestamp(loc: Location, now: Millis): (r: Location)
    ensures r.timestamp.Some?
    ensures loc.timestamp.Some? ==> r == loc
    ensures loc.timestamp.None? ==> r == StampedAt(loc, now)
  {
    loc.(timestamp := Some(loc.timestamp.GetOr(now)))
  }

  /**
   * One append: `route.push(sample)`, then, if the route now has a
   * previous point, `totalDistance += calculateDistance(previous, sample)`.
   */
  function Accumulate(s: Session, sample: Location, dist: Distance): (r: Session)
    ensures r.route == s.route + [sample]
    ensures s.route == [] ==> r.totalDistance == s.totalDistance
    ensures s.route != [] ==> r.totalDistance == s.totalDistance + Leg(dist, s.route[|s.route| - 1], sample)
    ensures r.(route := s.route, totalDistance := s.totalDistance) == s
  {
    var route := s.route + [sample];
    var total := if |route| > 1 then s.totalDistance + Leg(dist, route[|route| - 2], sample) else s.totalDistance;
    s.(route := route, totalDistance := total)
  }

  /** The route holds at least the start point and the total is the polyline's length. */
  predicate Tallied(s: Session, dist: Distance) {
    |s.route| >= 1 && s.totalDistance == PathLength(s.route, dist)
  }

  /** An append keeps the total equal to the length of the route. */
  lemma AccumulateTallied(s: Session, sample: Location, dist: Distance)
    requires Tallied(s, dist)
    ensures Tallied(Accumulate(s, sample, dist), dist)
  {
    var route := s.route + [sample];
    assert route[..|route| - 1] == s.route;
  }

  /** A run of appends, in order. */
  function AccumulateAll(s: Session, samples: seq<Location>, dist: Distance): Session
    decreases |samples|
  {
    if samples == [] then s
    else AccumulateAll(Accumulate(s, samples[0], dist), samples[1..], dist)
  }

  /**
   * After any run of appends the route is the old route followed by the
   * samples, the total is still the length of the route, and no other
   * field has changed.
   */
  lemma {:induction false} AccumulateAllTallied(s: Session, samples: seq<Location>, dist: Distance)
    requires Tallied(s, dist)
    ensures AccumulateAll(s, samples, dist).route == s.route + samples
    ensures Tallied(AccumulateAll(s, samples, dist), dist)
    ensures AccumulateAll(s, samples, dist).(route := s.route, totalDistance := s.totalDistance) == s
    decreases |samples|
  {
    if samples != [] {
      var s' := Accumulate(s, samples[0], dist);
      AccumulateTallied(s, samples[0], dist);
      AccumulateAllTallied(s', samples[1..], dist);
      assert s.route + [samples[0]] + samples[1..] == s.route + samples;
    }
  }

  /**
   * A session as created (route `[start]`, total 0) and then only appended
   * to: the route has one point more than there were appends, and the
   * total is the sum of the legs between consecutive points.
   */
  lemma CreatedThenAppended(s: Session, samples: seq<Location>, dist: Distance)
    requires |s.route| == 1 && s.totalDistance == 0.0
    ensures |AccumulateAll(s, samples, dist).route| == |samples| + 1
    ensures AccumulateAll(s, samples, dist).route == [s.route[0]] + samples
    ensures AccumulateAll(s, samples, dist).totalDistance == PathLength([s.route[0]] + samples, dist)
  {
    assert s.route == [s.route[0]];
    AccumulateAllTallied(s, samples, dist);
  }

  /** Two appends after the start: the legs add up, P0 to P1 then P1 to P2. */
  lemma TwoAppends(s: Session, p1: Location, p2: Location, dist: Distance)
    requires |s.route| == 1 && s.totalDistance == 0.0
    ensures AccumulateAll(s, [p1, p2], dist).totalDistance
         == Leg(dist, s.route[0], p1) + Leg(dist, p1, p2)
  {
    CreatedThenAppended(s, [p1, p2], dist);
    var route := [s.route[0], p1, p2];
    assert [s.route[0]] + [p1, p2] == route;
    assert route[..2] == [s.route[0], p1];
    assert route[..2][..1] == [s.route[0]];
    assert PathLength(route[..2], dist) == Leg(dist, s.route[0], p1);
    assert PathLength(route, dist) == PathLength(route[..2], dist) + Leg(dist, p1, p2);
  }
}
