/**
 * The fleet used by the source's tests: Alice at (0, 0) rated 4.8 and available, Bob at
 * (3, 4) rated 4.5 and busy, Charlie at (1, 1) rated 4.9 and available.
 */
module Scenarios {
  import opened Results
  import opened Geometry
  import opened Fleet
  import opened Selection
  import FixedDispatch
  import BuggyDispatch

  const Alice := DriverState("Alice", Point(0.0, 0.0), 4.8, true)
  const Bob := DriverState("Bob", Point(3.0, 4.0), 4.5, false)
  const Charlie := DriverState("Charlie", Point(1.0, 1.0), 4.9, true)

  function Fixture(): seq<DriverState>
  {
    [Alice, Bob, Charlie]
  }

  /** The root of 2 exceeds 1. */
  lemma RootOfTwo(root: real -> real)
    requires IsRoot(root)
    ensures root(2.0) > 1.0
  {
    var r := root(2.0);
    if r <= 1.0 {
      ProductAtMost(r, 1.0, r, 1.0);
    }
  }

  /** Seen from (0.1, 0.1), Alice is the nearest available driver. */
  lemma NearestFromNearOrigin(root: real -> real)
    requires IsRoot(root)
    ensures Nearest(root, Fixture(), Point(0.1, 0.1)) == Some(0)
  {
    var fleet, p := Fixture(), Point(0.1, 0.1);
    assert SquaredDistance(Alice.location, p) == 0.02;
    assert SquaredDistance(Charlie.location, p) == 1.62;
    DistanceOrder(root, Alice.location, Charlie.location, p);
    assert IsNearest(root, fleet, p, 0);
    NearestIsUnique(root, fleet, p, 0, Nearest(root, fleet, p).value);
  }

  /** Seen from (0.1, 0.1), Alice is also the nearest driver when availability is ignored. */
  lemma UnfilteredFromNearOrigin(root: real -> real)
    requires IsRoot(root)
    ensures NearestIgnoringAvailability(root, Fixture(), Point(0.1, 0.1)) == Some(0)
  {
    var fleet, p := Fixture(), Point(0.1, 0.1);
    var all := AllAvailable(fleet);
    assert SquaredDistance(all[0].location, p) == 0.02;
    assert SquaredDistance(all[1].location, p) == 23.62;
    assert SquaredDistance(all[2].location, p) == 1.62;
    DistanceOrder(root, all[0].location, all[2].location, p);
    DistanceOrder(root, all[0].location, all[1].location, p);
    assert IsNearest(root, all, p, 0);
    UnfilteredIsNearestOfAll(root, fleet, p);
    NearestIsUnique(root, all, p, 0, NearestIgnoringAvailability(root, fleet, p).value);
  }

  /** Seen from (0, 0), Alice scores 4.8 and Charlie less than 2.45, so Alice is the best driver. */
  lemma BestFromOrigin(root: real -> real)
    requires IsRoot(root)
    ensures Score(root, Alice, Point(0.0, 0.0)) == 4.8
    ensures Score(root, Charlie, Point(0.0, 0.0)) < 2.45
    ensures forall k: nat :: IsBest(root, Fixture(), Point(0.0, 0.0), k) <==> k == 0
  {
    var fleet, p := Fixture(), Point(0.0, 0.0);
    assert SquaredDistance(Alice.location, p) == 0.0;
    assert SquaredDistance(Charlie.location, p) == 2.0;
    RootOfZero(root, 0.0);
    RootOfTwo(root);
    assert Score(root, Alice, p) == 4.8;
    var c := Score(root, Charlie, p);
    var r := root(2.0);
    assert c * (r + 1.0) == 4.9;
    if c >= 2.45 {
      ProductAtMost(2.45, c, 2.0, r + 1.0);
    }
    assert IsBest(root, fleet, p, 0);
    forall k: nat | IsBest(root, fleet, p, k)
      ensures k == 0
    {
      BestIsUnique(root, fleet, p, 0, k);
    }
  }

  /**
   * Seen from (3, 4), the unfiltered rule of the defective versions picks Bob, who is not
   * available, while the fixed rule picks Charlie.
   */
  lemma UnfilteredPicksBusyDriver(root: real -> real)
    requires IsRoot(root)
    ensures NearestIgnoringAvailability(root, Fixture(), Point(3.0, 4.0)) == Some(1)
    ensures !Fixture()[1].available
    ensures Nearest(root, Fixture(), Point(3.0, 4.0)) == Some(2)
  {
    var fleet, p := Fixture(), Point(3.0, 4.0);
    assert SquaredDistance(Alice.location, p) == 25.0;
    assert SquaredDistance(Bob.location, p) == 0.0;
    assert SquaredDistance(Charlie.location, p) == 13.0;
    DistanceOrder(root, Bob.location, Alice.location, p);
    DistanceOrder(root, Bob.location, Charlie.location, p);
    DistanceOrder(root, Charlie.location, Alice.location, p);
    var all := AllAvailable(fleet);
    assert IsNearest(root, all, p, 1);
    UnfilteredIsNearestOfAll(root, fleet, p);
    NearestIsUnique(root, all, p, 1, NearestIgnoringAvailability(root, fleet, p).value);
    assert IsNearest(root, fleet, p, 2);
    NearestIsUnique(root, fleet, p, 2, Nearest(root, fleet, p).value);
  }

  /** Builds the test fleet as driver objects, in list order. */
  method NewFixture() returns (drivers: seq<Driver>)
    ensures forall d :: d in drivers ==> fresh(d)
    ensures States(drivers) == Fixture()
  {
    var alice := new Driver("Alice", Point(0.0, 0.0), 4.8, true);
    var bob := new Driver("Bob", Point(3.0, 4.0), 4.5, false);
    var charlie := new Driver("Charlie", Point(1.0, 1.0), 4.9, true);
    drivers := [alice, bob, charlie];
  }

  /** The reference assignment test: a passenger at (0.1, 0.1) is given Alice. */
  method FixedAssignTest(root: real -> real) returns (nearest: Result<Driver>)
    requires IsRoot(root)
    ensures nearest.Success? && nearest.value.name == "Alice"
  {
    var drivers := NewFixture();
    var system := new FixedDispatch.DispatchSystem(drivers);
    NearestFromNearOrigin(root);
    assert AsPoint(Some([0.1, 0.1])) == Some(Point(0.1, 0.1));
    nearest := system.AssignDriverByScan(Some([0.1, 0.1]), root);
    assert nearest == Success(drivers[0]);
    assert drivers[0].State() == Alice;
  }

  /** The reference best-driver test: from (0, 0) the best driver is Alice. */
  method FixedBestTest(root: real -> real) returns (best: Result<Driver>)
    requires IsRoot(root)
    ensures best.Success? && best.value.name == "Alice"
  {
    var drivers := NewFixture();
    var system := new FixedDispatch.DispatchSystem(drivers);
    assert AsPoint(Some([0.0, 0.0])) == Some(Point(0.0, 0.0));
    assert Fixture()[0].available;
    assert AnyAvailable(States(drivers));
    best := system.FindBestDriver(Some([0.0, 0.0]), root);
    BestFromOrigin(root);
    assert best != Failure(NoAvailableDriver) && best != Failure(InvalidInput);
    assert best.Failure? ==> best.error == InvalidInput || best.error == NoAvailableDriver;
    ghost var k: nat :| IsBest(root, Fixture(), Point(0.0, 0.0), k) && best.value == drivers[k];
    assert best == Success(drivers[0]);
    assert drivers[0].State() == Alice;
  }

  /** The no-driver test's loop: every driver in the list is marked unavailable, nothing else changes. */
  method ClearAvailability(ds: seq<Driver>)
    modifies set d | d in ds
    ensures States(ds) == NoneAvailable(old(States(ds)))
  {
    ghost var fleet := States(ds);
    for i := 0 to |ds|
      invariant forall j :: 0 <= j < |ds| ==>
        ds[j].name == fleet[j].name && ds[j].location == fleet[j].location && ds[j].rating == fleet[j].rating
      invariant forall j :: 0 <= j < i ==> !ds[j].available
    {
      ds[i].available := false;
    }
    ghost var none := NoneAvailable(fleet);
    forall j | 0 <= j < |ds|
      ensures States(ds)[j] == none[j]
    {
    }
  }

  /**
   * The reference no-driver test: once every flag is cleared through the system's list,
   * the system sees it and finding the best driver fails; a location that is not a
   * pair is rejected.
   */
  method FixedNoneLeftTest(root: real -> real)
    returns (drivers: seq<Driver>, noneLeft: Result<Driver>, malformed: Result<Driver>)
    requires IsRoot(root)
    ensures States(drivers) == NoneAvailable(Fixture())
    ensures noneLeft == Failure(NoAvailableDriver)
    ensures malformed == Failure(InvalidInput)
  {
    drivers := NewFixture();
    var system := new FixedDispatch.DispatchSystem(drivers);
    ClearAvailability(system.drivers);
    assert States(drivers) == NoneAvailable(Fixture());
    assert !AnyAvailable(States(system.drivers));
    noneLeft := system.FindBestDriver(Some([0.0, 0.0]), root);
    malformed := system.FindBestDriver(None, root);
  }

  /** The defective assignment on the test fleet: from (0.1, 0.1) Alice is still given. */
  method BuggyAssignTest(root: real -> real) returns (nearest: Result<Driver>)
    requires IsRoot(root)
    ensures nearest.Success? && nearest.value.name == "Alice"
  {
    var drivers := NewFixture();
    var system := new BuggyDispatch.DispatchSystem(drivers);
    UnfilteredFromNearOrigin(root);
    assert AsPoint(Some([0.1, 0.1])) == Some(Point(0.1, 0.1));
    nearest := system.AssignDriver(Some([0.1, 0.1]), root);
    assert nearest == Success(drivers[0]);
    assert drivers[0].State() == Alice;
  }

  /** The defective assignment from (3, 4): the busy Bob is given. */
  method BuggyBusyTest(root: real -> real) returns (busy: Result<Driver?>)
    requires IsRoot(root)
    ensures busy.Success? && busy.value != null && busy.value.name == "Bob" && !busy.value.available
  {
    var drivers := NewFixture();
    var system := new BuggyDispatch.DispatchSystem(drivers);
    UnfilteredPicksBusyDriver(root);
    assert AsPoint(Some([3.0, 4.0])) == Some(Point(3.0, 4.0));
    busy := system.AssignDriverByScan(Some([3.0, 4.0]), root);
    assert system.AssignDriver(Some([3.0, 4.0]), root) == Success(drivers[1]);
    assert drivers[1].State() == Bob;
  }

  /** The defective best-driver search on the test fleet: from (0, 0) Alice is still the best. */
  method BuggyBestTest(root: real -> real) returns (best: Result<Driver>)
    requires IsRoot(root)
    ensures best.Success? && best.value.name == "Alice"
  {
    var drivers := NewFixture();
    var system := new BuggyDispatch.DispatchSystem(drivers);
    assert AsPoint(Some([0.0, 0.0])) == Some(Point(0.0, 0.0));
    assert Fixture()[0].available;
    assert AnyAvailable(States(drivers));
    best := system.FindBestDriver(Some([0.0, 0.0]), root);
    BestFromOrigin(root);
    assert best != Failure(NoAvailableDriver) && best != Failure(InvalidInput);
    assert best.Failure? ==> best.error == InvalidInput || best.error == NoAvailableDriver;
    ghost var k: nat :| IsBest(root, Fixture(), Point(0.0, 0.0), k) && best.value == drivers[k];
    assert best == Success(drivers[0]);
    assert drivers[0].State() == Alice;
  }
}
