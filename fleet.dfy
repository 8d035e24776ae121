/**
 * Driver records.  A driver is an object whose fields callers update in place (the
 * tests flip `available` through the dispatch system's list), so it is a class; the
 * selection logic reasons about a value snapshot of the fleet, `States(drivers)`.
 */
module Fleet {
  import opened Results
  import opened Geometry

  /** The four fields of a driver record at one moment. */
  datatype DriverState = DriverState(name: string, location: Point, rating: real, available: bool)

  /** A value stored in a status dictionary (Python) or `Map<String, Object>` (Java). */
  datatype StatusValue = Text(text: string) | Location(point: Point) | Number(number: real) | Flag(flag: bool)

  class Driver {
    var name: string
    var location: Point
    var rating: real
    var available: bool

    /** Records the fields as given; the argument checks are in NewDriver. */
    constructor (name: string, location: Point, rating: real, available: bool)
      ensures State() == DriverState(name, location, rating, available)
    {
      this.name := name;
      this.location := location;
      this.rating := rating;
      this.available := available;
    }

    /** The driver's current fields as a value. */
    function State(): DriverState
      reads this
    {
      DriverState(name, location, rating, available)
    }

    /** The status dictionary of the fixed versions: exactly four keys, each holding the current field. */
    function Status(): (status: map<string, StatusValue>)
      reads this
      ensures status.Keys == {"name", "location", "rating", "available"}
      ensures status["name"] == Text(name) && status["location"] == Location(location)
      ensures status["rating"] == Number(rating) && status["available"] == Flag(available)
    {
      map["name" := Text(name), "location" := Location(location),
          "rating" := Number(rating), "available" := Flag(available)]
    }

    /** The Java getStatus: a fresh map filled by four puts. */
    method GetStatus() returns (status: map<string, StatusValue>)
      ensures status == Status()
    {
      status := map[];
      status := status["name" := Text(name)];
      status := status["location" := Location(location)];
      status := status["rating" := Number(rating)];
      status := status["available" := Flag(available)];
    }
  }

  /**
   * The checked driver constructor.  `name` is None for a Java null or a Python value that
   * is not a string; `location` is None for a Java null or a Python value that is not a tuple.
   * Any such argument, or a location without exactly two components, is rejected.
   */
  method NewDriver(name: Option<string>, location: Option<seq<real>>, rating: real, available: bool := true)
    returns (r: Result<Driver>)
    ensures r.Failure? <==> name.None? || AsPoint(location).None?
    ensures r.Failure? ==> r.error == InvalidInput
    ensures r.Success? ==> fresh(r.value)
    ensures r.Success? ==> r.value.State() == DriverState(name.value, AsPoint(location).value, rating, available)
  {
    var point := AsPoint(location);
    if name.None? || point.None? {
      return Failure(InvalidInput);
    }
    var d := new Driver(name.value, point.value, rating, available);
    return Success(d);
  }

  /** The full status tells drivers apart: two drivers with equal statuses have equal fields. */
  lemma StatusDeterminesState(d1: Driver, d2: Driver)
    requires d1.Status() == d2.Status()
    ensures d1.State() == d2.State()
  {
    assert d1.Status()["name"] == d2.Status()["name"];
    assert d1.Status()["location"] == d2.Status()["location"];
    assert d1.Status()["rating"] == d2.Status()["rating"];
    assert d1.Status()["available"] == d2.Status()["available"];
  }

  /** A snapshot of the fleet: each driver's current fields, in list order. */
  function States(ds: seq<Driver>): (fleet: seq<DriverState>)
    reads ds
    ensures |fleet| == |ds|
    ensures forall i :: 0 <= i < |ds| ==> fleet[i] == ds[i].State()
  {
    if ds == [] then [] else [ds[0].State()] + States(ds[1..])
  }
}
