/**
 * The reference dispatch system (the fixed Python and Java versions).  It holds the
 * caller's driver objects themselves, so an availability flag that a caller flips is
 * seen by every later selection; the selections read the drivers and change nothing.
 */
module FixedDispatch {
  import opened Results
  import opened Geometry
  import opened Fleet
  import opened Selection

  class DispatchSystem {
    /** The caller's drivers, by reference, in list order. */
    const drivers: seq<Driver>

    constructor (drivers: seq<Driver>)
      ensures this.drivers == drivers
    {
      this.drivers := drivers;
    }

    /**
     * The driver-list check of the constructor: `drivers` is None for a Java null or a
     * Python value that is not a list, and is then rejected.
     */
    static method Create(drivers: Option<seq<Driver>>) returns (r: Result<DispatchSystem>)
      ensures r.Failure? <==> drivers.None?
      ensures r.Failure? ==> r.error == InvalidInput
      ensures r.Success? ==> fresh(r.value) && r.value.drivers == drivers.value
    {
      if drivers.None? {
        return Failure(InvalidInput);
      }
      var system := new DispatchSystem(drivers.value);
      return Success(system);
    }

    /**
     * Python assign_driver: keep the available drivers, then take the first one with
     * the smallest distance.  A malformed location is rejected before availability is looked at.
     */
    function AssignDriver(loc: Option<seq<real>>, root: real -> real): (r: Result<Driver>)
      reads drivers
      ensures r == Failure(InvalidInput) <==> AsPoint(loc).None?
      ensures r == Failure(NoAvailableDriver) <==> AsPoint(loc).Some? && !AnyAvailable(States(drivers))
      ensures r.Success? ==> exists k: nat :: IsNearest(root, States(drivers), AsPoint(loc).value, k) && r.value == drivers[k]
    {
      match AsPoint(loc)
      case None => Failure(InvalidInput)
      case Some(p) =>
        match Nearest(root, States(drivers), p)
        case None => Failure(NoAvailableDriver)
        case Some(k) => Success(drivers[k])
    }

    /**
     * Java assignDriver: one pass that skips unavailable drivers and replaces the
     * candidate only on a strictly smaller distance.  It returns what AssignDriver does.
     */
    method AssignDriverByScan(loc: Option<seq<real>>, root: real -> real) returns (r: Result<Driver>)
      ensures r == AssignDriver(loc, root)
    {
      var point := AsPoint(loc);
      if point.None? {
        return Failure(InvalidInput);
      }
      var p := point.value;
      ghost var fleet := States(drivers);
      var closest: Driver? := null;
      var minDistance := 0.0;
      ghost var k := 0;
      for i := 0 to |drivers|
        invariant closest == null <==> forall j :: 0 <= j < i ==> !fleet[j].available
        invariant closest != null ==> NearestAmong(root, fleet, p, i, k) && closest == drivers[k]
        invariant closest != null ==> minDistance == DistanceOf(root, fleet[k], p)
      {
        var d := drivers[i];
        assert fleet[i] == d.State();
        if !d.available {
          if closest != null {
            NearestSkipsUnavailable(root, fleet, p, i, k);
          }
          continue;
        }
        var dist := Distance(root, d.location, p);
        if closest == null || dist < minDistance {
          NearestTakesCloser(root, fleet, p, i, k);
          minDistance := dist;
          closest := d;
          k := i;
        } else {
          NearestKeepsOnTie(root, fleet, p, i, k);
        }
      }
      if closest == null {
        return Failure(NoAvailableDriver);
      }
      NearestIsUnique(root, fleet, p, k, Nearest(root, fleet, p).value);
      return Success(closest);
    }

    /**
     * find_best_driver / findBestDriver: one pass over the available drivers that keeps
     * the first one with the highest score rating / (distance + 1).
     */
    method FindBestDriver(loc: Option<seq<real>>, root: real -> real) returns (r: Result<Driver>)
      requires IsRoot(root)
      ensures r == Failure(InvalidInput) <==> AsPoint(loc).None?
      ensures r == Failure(NoAvailableDriver) <==> AsPoint(loc).Some? && !AnyAvailable(States(drivers))
      ensures r.Success? ==> exists k: nat :: IsBest(root, States(drivers), AsPoint(loc).value, k) && r.value == drivers[k]
    {
      var point := AsPoint(loc);
      if point.None? {
        return Failure(InvalidInput);
      }
      var p := point.value;
      ghost var fleet := States(drivers);
      var bestDriver: Driver? := null;
      var bestScore := 0.0;
      ghost var k := 0;
      for i := 0 to |drivers|
        invariant bestDriver == null <==> forall j :: 0 <= j < i ==> !fleet[j].available
        invariant bestDriver != null ==> BestAmong(root, fleet, p, i, k) && bestDriver == drivers[k]
        invariant bestDriver != null ==> bestScore == Score(root, fleet[k], p)
      {
        var d := drivers[i];
        assert fleet[i] == d.State();
        if !d.available {
          if bestDriver != null {
            BestSkipsUnavailable(root, fleet, p, i, k);
          }
          continue;
        }
        DistanceIsMetric(root, d.location, p);
        var distance := Distance(root, d.location, p);
        var score := d.rating / (distance + 1.0);
        assert score == Score(root, fleet[i], p);
        if bestDriver == null || score > bestScore {
          BestTakesHigher(root, fleet, p, i, k);
          bestScore := score;
          bestDriver := d;
          k := i;
        } else {
          BestKeepsOnTie(root, fleet, p, i, k);
        }
      }
      if bestDriver == null {
        return Failure(NoAvailableDriver);
      }
      return Success(bestDriver);
    }
  }
}
