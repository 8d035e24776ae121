/**
 * The deliberately defective dispatch system (the debugging-exercise Python and Java
 * versions), modelled as it behaves: the surge is added, the nearest-driver rule ignores
 * availability, the best-driver rule recomputes each distance once per driver and averages,
 * and the status has no rating.
 */
module BuggyDispatch {
  import opened Results
  import opened Geometry
  import opened Fleet
  import opened Selection
  import Pricing
  import FixedDispatch

  /** calculate_fare / calculateFare as written: the surge is added to the unsurged fare. */
  function CalculateFare(distance: real, time: real, surge: real): (f: real)
    ensures f == Pricing.Fare(distance, time, 1.0) + surge
  {
    Pricing.MeteredFare(distance, time) + surge
  }

  /** The documented trip costs 19.75 here instead of the intended 27.375. */
  lemma AdditiveFareExample()
    ensures CalculateFare(10.0, 15.0, 1.5) == 19.75
    ensures Pricing.Fare(10.0, 15.0, 1.5) == 27.375
  {
  }

  /** The additive surge only shifts the price: the trip's charges are never scaled. */
  lemma AdditiveSurgeShifts(distance: real, time: real, s1: real, s2: real)
    ensures CalculateFare(distance, time, s2) - CalculateFare(distance, time, s1) == s2 - s1
  {
  }

  /** Adding and multiplying the surge agree exactly when (metered - 1) * (surge - 1) == 1. */
  lemma AdditiveAgreesExactlyWhen(distance: real, time: real, surge: real)
    ensures CalculateFare(distance, time, surge) == Pricing.Fare(distance, time, surge)
       <==> (Pricing.MeteredFare(distance, time) - 1.0) * (surge - 1.0) == 1.0
  {
    var m := Pricing.MeteredFare(distance, time);
    assert (m - 1.0) * (surge - 1.0) == m * surge - m - surge + 1.0;
  }

  /** Adding the surge undercharges exactly when (metered - 1) * (surge - 1) > 1. */
  lemma AdditiveUnderchargesExactlyWhen(distance: real, time: real, surge: real)
    ensures CalculateFare(distance, time, surge) < Pricing.Fare(distance, time, surge)
       <==> (Pricing.MeteredFare(distance, time) - 1.0) * (surge - 1.0) > 1.0
  {
    var m := Pricing.MeteredFare(distance, time);
    assert (m - 1.0) * (surge - 1.0) == m * surge - m - surge + 1.0;
  }

  /** With a surge of at least 2 and a metered fare above 2, adding the surge undercharges. */
  lemma AdditiveUndercharges(distance: real, time: real, surge: real)
    requires 2.0 <= surge && 2.0 < Pricing.MeteredFare(distance, time)
    ensures CalculateFare(distance, time, surge) < Pricing.Fare(distance, time, surge)
  {
    var m := Pricing.MeteredFare(distance, time);
    ProductAtMost(m - 1.0, m - 1.0, 1.0, surge - 1.0);
    AdditiveUnderchargesExactlyWhen(distance, time, surge);
  }

  /** get_status as written: name, location and availability, but no rating. */
  function Status(d: Driver): (status: map<string, StatusValue>)
    reads d
    ensures status.Keys == {"name", "location", "available"}
    ensures status["name"] == Text(d.name) && status["location"] == Location(d.location)
    ensures status["available"] == Flag(d.available)
  {
    map["name" := Text(d.name), "location" := Location(d.location), "available" := Flag(d.available)]
  }

  /** The Java getStatus as written: three puts, none for the rating. */
  method GetStatus(d: Driver) returns (status: map<string, StatusValue>)
    ensures status == Status(d)
  {
    status := map[];
    status := status["name" := Text(d.name)];
    status := status["location" := Location(d.location)];
    status := status["available" := Flag(d.available)];
  }

  /** The defective status is the reference status without its "rating" entry. */
  lemma StatusMissesRating(d: Driver)
    ensures "rating" !in Status(d)
    ensures Status(d) == d.Status() - {"rating"}
  {
  }

  /** Drivers that differ only in rating have the same defective status. */
  lemma StatusCannotTellRatings(d1: Driver, d2: Driver)
    requires d1.name == d2.name && d1.location == d2.location && d1.available == d2.available
    ensures Status(d1) == Status(d2)
  {
  }

  class DispatchSystem {
    /** The caller's drivers, by reference, in list order. */
    const drivers: seq<Driver>

    constructor (drivers: seq<Driver>)
      ensures this.drivers == drivers
    {
      this.drivers := drivers;
    }

    /** The constructor's list check, unchanged from the fixed version. */
    static method Create(drivers: Option<seq<Driver>>) returns (r: Result<DispatchSystem>)
      ensures r.Failure? <==> drivers.None?
      ensures r.Failure? ==> r.error == InvalidInput
      ensures r.Success? ==> fresh(r.value) && r.value.drivers == drivers.value
    {
      if drivers.None? {
        return Failure(InvalidInput);
      }
      var system := new DispatchSystem(drivers.value);
      return Success(system);
    }

    /**
     * Python assign_driver as written: `min` over every driver.  It can return a driver
     * that is not available, and `min` of an empty list raises ValueError.
     */
    function AssignDriver(loc: Option<seq<real>>, root: real -> real): (r: Result<Driver>)
      reads drivers
      ensures r == Failure(InvalidInput) <==> AsPoint(loc).None?
      ensures r == Failure(NoAvailableDriver) <==> AsPoint(loc).Some? && drivers == []
      ensures r.Success? ==> exists k: nat ::
        IsNearest(root, AllAvailable(States(drivers)), AsPoint(loc).value, k) && r.value == drivers[k]
    {
      match AsPoint(loc)
      case None => Failure(InvalidInput)
      case Some(p) =>
        UnfilteredIsNearestOfAll(root, States(drivers), p);
        match NearestIgnoringAvailability(root, States(drivers), p)
        case None => Failure(NoAvailableDriver)
        case Some(k) => Success(drivers[k])
    }

    /**
     * Java assignDriver as written: one pass over every driver that replaces the candidate
     * on a strictly smaller distance.  It picks the same driver as AssignDriver, but an
     * empty list gives null rather than an exception.
     */
    method AssignDriverByScan(loc: Option<seq<real>>, root: real -> real) returns (r: Result<Driver?>)
      ensures AsPoint(loc).None? ==> r == Failure(InvalidInput)
      ensures AsPoint(loc).Some? ==> r.Success?
      ensures r.Success? ==> (r.value == null <==> drivers == [])
      ensures r.Success? && r.value != null ==> AssignDriver(loc, root) == Success(r.value)
    {
      var point := AsPoint(loc);
      if point.None? {
        return Failure(InvalidInput);
      }
      var p := point.value;
      ghost var all := AllAvailable(States(drivers));
      var closest: Driver? := null;
      var minDistance := 0.0;
      ghost var k := 0;
      for i := 0 to |drivers|
        invariant closest == null <==> i == 0
        invariant closest != null ==> NearestAmong(root, all, p, i, k) && closest == drivers[k]
        invariant closest != null ==> minDistance == DistanceOf(root, all[k], p)
      {
        var d := drivers[i];
        var dist := Distance(root, d.location, p);
        assert all[i].available && dist == DistanceOf(root, all[i], p);
        if closest == null || dist < minDistance {
          NearestTakesCloser(root, all, p, i, k);
          minDistance := dist;
          closest := d;
          k := i;
        } else {
          NearestKeepsOnTie(root, all, p, i, k);
        }
      }
      if closest != null {
        UnfilteredIsNearestOfAll(root, States(drivers), p);
        NearestIsUnique(root, all, p, k, NearestIgnoringAvailability(root, States(drivers), p).value);
      }
      return Success(closest);
    }

    /**
     * find_best_driver / findBestDriver as written: for each available driver the same
     * distance is added up once per driver in the list and divided by the list's length.
     * The average equals the distance, so the selection is exactly the fixed one; the
     * division runs only inside the loop, where the list is not empty.
     */
    method FindBestDriver(loc: Option<seq<real>>, root: real -> real) returns (r: Result<Driver>)
      requires IsRoot(root)
      ensures r == Failure(InvalidInput) <==> AsPoint(loc).None?
      ensures r == Failure(NoAvailableDriver) <==> AsPoint(loc).Some? && !AnyAvailable(States(drivers))
      ensures r.Success? ==> exists k: nat :: IsBest(root, States(drivers), AsPoint(loc).value, k) && r.value == drivers[k]
    {
      var point := AsPoint(loc);
      if point.None? {
        return Failure(InvalidInput);
      }
      var p := point.value;
      ghost var fleet := States(drivers);
      var bestDriver: Driver? := null;
      var bestScore := 0.0;
      ghost var k := 0;
      for i := 0 to |drivers|
        invariant bestDriver == null <==> forall j :: 0 <= j < i ==> !fleet[j].available
        invariant bestDriver != null ==> BestAmong(root, fleet, p, i, k) && bestDriver == drivers[k]
        invariant bestDriver != null ==> bestScore == Score(root, fleet[k], p)
      {
        var d := drivers[i];
        assert fleet[i] == d.State();
        if !d.available {
          if bestDriver != null {
            BestSkipsUnavailable(root, fleet, p, i, k);
          }
          continue;
        }
        var avgDistance := RepeatedAverageDistance(root, d.location, p, |drivers|);
        DistanceIsMetric(root, d.location, p);
        var score := d.rating / (avgDistance + 1.0);
        assert score == Score(root, fleet[i], p);
        if bestDriver == null || score > bestScore {
          BestTakesHigher(root, fleet, p, i, k);
          bestScore := score;
          bestDriver := d;
          k := i;
        } else {
          BestKeepsOnTie(root, fleet, p, i, k);
        }
      }
      if bestDriver == null {
        return Failure(NoAvailableDriver);
      }
      return Success(bestDriver);
    }
  }

  /**
   * The inner loop of find_best_driver / findBestDriver as written: the distance from
   * `location` to `p` is added once for each of the n drivers in the list and the sum is
   * divided by n, which gives back the distance itself.
   */
  method RepeatedAverageDistance(root: real -> real, location: Point, p: Point, n: nat) returns (avg: real)
    requires n > 0
    ensures avg == Distance(root, location, p)
  {
    ghost var distance := Distance(root, location, p);
    var distanceSum := 0.0;
    for j := 0 to n
      invariant distanceSum == (j as real) * distance
    {
      distanceSum := distanceSum + Distance(root, location, p);
    }
    avg := distanceSum / (n as real);
  }

  /** Over the same drivers, the defective and the fixed nearest rules agree when every driver is available. */
  lemma AssignAgreesWhenAllAvailable(buggy: DispatchSystem, fixed: FixedDispatch.DispatchSystem,
                                     loc: Option<seq<real>>, root: real -> real)
    requires buggy.drivers == fixed.drivers
    requires forall d :: d in buggy.drivers ==> d.available
    ensures buggy.AssignDriver(loc, root) == fixed.AssignDriver(loc, root)
  {
    if AsPoint(loc).Some? {
      UnfilteredAgreesWhenAllAvailable(root, States(buggy.drivers), AsPoint(loc).value);
    }
  }
}
