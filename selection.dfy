/**
 * The selection rules of the dispatch engine, stated on a snapshot of the fleet.
 * A position k names the driver at index k of the dispatch system's list; the
 * scans keep the first driver in list order when several are equally good.
 */
module Selection {
  import opened Results
  import opened Geometry
  import opened Fleet

  /** Distance from a driver's current location to p. */
  function DistanceOf(root: real -> real, d: DriverState, p: Point): real
  {
    Distance(root, d.location, p)
  }

  /**
   * The efficiency score rating / (distance + 1); the "+ 1" keeps the divisor positive.
   * A driver standing at p scores exactly their rating.
   */
  function Score(root: real -> real, d: DriverState, p: Point): (s: real)
    requires IsRoot(root)
    ensures s * (DistanceOf(root, d, p) + 1.0) == d.rating
    ensures d.location == p ==> s == d.rating
  {
    DistanceIsMetric(root, d.location, p);
    d.rating / (DistanceOf(root, d, p) + 1.0)
  }

  /** The distance key of every fleet position. */
  function Distances(root: real -> real, fleet: seq<DriverState>, p: Point): (key: seq<real>)
    ensures |key| == |fleet|
    ensures forall i :: 0 <= i < |fleet| ==> key[i] == DistanceOf(root, fleet[i], p)
  {
    seq(|fleet|, i requires 0 <= i < |fleet| => DistanceOf(root, fleet[i], p))
  }

  ghost predicate AnyAvailable(fleet: seq<DriverState>)
  {
    exists j :: 0 <= j < |fleet| && fleet[j].available
  }

  /** The fleet with every availability flag set. */
  function AllAvailable(fleet: seq<DriverState>): (all: seq<DriverState>)
    ensures |all| == |fleet|
    ensures forall i :: 0 <= i < |fleet| ==> all[i] == fleet[i].(available := true)
  {
    seq(|fleet|, i requires 0 <= i < |fleet| => fleet[i].(available := true))
  }

  /** The fleet with every availability flag cleared. */
  function NoneAvailable(fleet: seq<DriverState>): (none: seq<DriverState>)
    ensures |none| == |fleet|
    ensures forall i :: 0 <= i < |fleet| ==> none[i] == fleet[i].(available := false)
    ensures !AnyAvailable(none)
  {
    seq(|fleet|, i requires 0 <= i < |fleet| => fleet[i].(available := false))
  }

  /** Positions of the available drivers from `from` on, in list order. */
  function AvailableFrom(fleet: seq<DriverState>, from: nat): (ps: seq<nat>)
    requires from <= |fleet|
    ensures forall t :: 0 <= t < |ps| ==> from <= ps[t] < |fleet| && fleet[ps[t]].available
    ensures forall k :: from <= k < |fleet| && fleet[k].available ==> k in ps
    ensures forall s, t :: 0 <= s < t < |ps| ==> ps[s] < ps[t]
    decreases |fleet| - from
  {
    if from == |fleet| then []
    else if fleet[from].available then [from] + AvailableFrom(fleet, from + 1)
    else AvailableFrom(fleet, from + 1)
  }

  /** `[driver for driver in drivers if driver.available]`, as positions. */
  function AvailablePositions(fleet: seq<DriverState>): (ps: seq<nat>)
    ensures forall t :: 0 <= t < |ps| ==> ps[t] < |fleet| && fleet[ps[t]].available
    ensures forall k :: 0 <= k < |fleet| && fleet[k].available ==> k in ps
    ensures forall s, t :: 0 <= s < t < |ps| ==> ps[s] < ps[t]
    ensures ps == [] <==> !AnyAvailable(fleet)
  {
    var ps := AvailableFrom(fleet, 0);
    assert ps == [] ==> !AnyAvailable(fleet);
    assert ps != [] ==> fleet[ps[0]].available;
    ps
  }

  /** Every position of a list of length n, in order. */
  function Positions(n: nat): (ps: seq<nat>)
    ensures |ps| == n
    ensures forall t :: 0 <= t < n ==> ps[t] == t
  {
    seq(n, i requires 0 <= i < n => i as nat)
  }

  /**
   * Python's `min(items, key=...)`: the place in `ps` of the first item whose key is
   * smallest.  `min` replaces its candidate only on a strictly smaller key.
   */
  function FirstMinAt(ps: seq<nat>, key: seq<real>): (i: nat)
    requires |ps| > 0
    requires forall t :: 0 <= t < |ps| ==> ps[t] < |key|
    ensures i < |ps|
    ensures forall t :: 0 <= t < |ps| ==> key[ps[i]] <= key[ps[t]]
    ensures forall t :: 0 <= t < i ==> key[ps[i]] < key[ps[t]]
  {
    if |ps| == 1 then 0
    else
      var j := 1 + FirstMinAt(ps[1..], key);
      if key[ps[j]] < key[ps[0]] then j else 0
  }

  /**
   * Among the first n drivers, k is available, no available driver is nearer,
   * and every available driver listed before k is strictly farther.
   */
  ghost predicate NearestAmong(root: real -> real, fleet: seq<DriverState>, p: Point, n: nat, k: nat)
    requires n <= |fleet|
  {
    k < n && fleet[k].available
    && (forall j :: 0 <= j < n && fleet[j].available ==> DistanceOf(root, fleet[k], p) <= DistanceOf(root, fleet[j], p))
    && (forall j :: 0 <= j < k && fleet[j].available ==> DistanceOf(root, fleet[k], p) < DistanceOf(root, fleet[j], p))
  }

  /** k is the nearest available driver, the first one on ties. */
  ghost predicate IsNearest(root: real -> real, fleet: seq<DriverState>, p: Point, k: nat)
  {
    NearestAmong(root, fleet, p, |fleet|, k)
  }

  /**
   * Among the first n drivers, k is available, no available driver scores higher,
   * and every available driver listed before k scores strictly lower.
   */
  ghost predicate BestAmong(root: real -> real, fleet: seq<DriverState>, p: Point, n: nat, k: nat)
    requires IsRoot(root) && n <= |fleet|
  {
    k < n && fleet[k].available
    && (forall j :: 0 <= j < n && fleet[j].available ==> Score(root, fleet[j], p) <= Score(root, fleet[k], p))
    && (forall j :: 0 <= j < k && fleet[j].available ==> Score(root, fleet[j], p) < Score(root, fleet[k], p))
  }

  /** k is the available driver with the highest score, the first one on ties. */
  ghost predicate IsBest(root: real -> real, fleet: seq<DriverState>, p: Point, k: nat)
    requires IsRoot(root)
  {
    BestAmong(root, fleet, p, |fleet|, k)
  }

  /** A driver that is not available leaves the nearest among the first i drivers unchanged. */
  lemma NearestSkipsUnavailable(root: real -> real, fleet: seq<DriverState>, p: Point, i: nat, k: nat)
    requires i < |fleet| && !fleet[i].available
    requires NearestAmong(root, fleet, p, i, k)
    ensures NearestAmong(root, fleet, p, i + 1, k)
  {
  }

  /** An available driver that is not strictly nearer leaves the nearest unchanged. */
  lemma NearestKeepsOnTie(root: real -> real, fleet: seq<DriverState>, p: Point, i: nat, k: nat)
    requires i < |fleet| && fleet[i].available
    requires NearestAmong(root, fleet, p, i, k)
    requires DistanceOf(root, fleet[k], p) <= DistanceOf(root, fleet[i], p)
    ensures NearestAmong(root, fleet, p, i + 1, k)
  {
  }

  /** An available driver that is the first available one, or strictly nearer, becomes the nearest. */
  lemma NearestTakesCloser(root: real -> real, fleet: seq<DriverState>, p: Point, i: nat, k: nat)
    requires i < |fleet| && fleet[i].available
    requires (forall j :: 0 <= j < i ==> !fleet[j].available)
      || (NearestAmong(root, fleet, p, i, k) && DistanceOf(root, fleet[i], p) < DistanceOf(root, fleet[k], p))
    ensures NearestAmong(root, fleet, p, i + 1, i)
  {
  }

  /** A driver that is not available leaves the best among the first i drivers unchanged. */
  lemma BestSkipsUnavailable(root: real -> real, fleet: seq<DriverState>, p: Point, i: nat, k: nat)
    requires IsRoot(root) && i < |fleet| && !fleet[i].available
    requires BestAmong(root, fleet, p, i, k)
    ensures BestAmong(root, fleet, p, i + 1, k)
  {
  }

  /** An available driver that does not score strictly higher leaves the best unchanged. */
  lemma BestKeepsOnTie(root: real -> real, fleet: seq<DriverState>, p: Point, i: nat, k: nat)
    requires IsRoot(root) && i < |fleet| && fleet[i].available
    requires BestAmong(root, fleet, p, i, k)
    requires Score(root, fleet[i], p) <= Score(root, fleet[k], p)
    ensures BestAmong(root, fleet, p, i + 1, k)
  {
  }

  /** An available driver that is the first available one, or scores strictly higher, becomes the best. */
  lemma BestTakesHigher(root: real -> real, fleet: seq<DriverState>, p: Point, i: nat, k: nat)
    requires IsRoot(root) && i < |fleet| && fleet[i].available
    requires (forall j :: 0 <= j < i ==> !fleet[j].available)
      || (BestAmong(root, fleet, p, i, k) && Score(root, fleet[k], p) < Score(root, fleet[i], p))
    ensures BestAmong(root, fleet, p, i + 1, i)
  {
  }

  /** At most one driver is the first nearest: the rule decides ties. */
  lemma NearestIsUnique(root: real -> real, fleet: seq<DriverState>, p: Point, k1: nat, k2: nat)
    requires IsNearest(root, fleet, p, k1) && IsNearest(root, fleet, p, k2)
    ensures k1 == k2
  {
  }

  /** At most one driver is the first best: the rule decides ties. */
  lemma BestIsUnique(root: real -> real, fleet: seq<DriverState>, p: Point, k1: nat, k2: nat)
    requires IsRoot(root)
    requires IsBest(root, fleet, p, k1) && IsBest(root, fleet, p, k2)
    ensures k1 == k2
  {
  }

  /** The first minimum over the available positions is the first nearest available driver. */
  lemma FirstMinIsNearest(root: real -> real, fleet: seq<DriverState>, p: Point, ps: seq<nat>, i: nat)
    requires ps == AvailablePositions(fleet) && i < |ps|
    requires forall t :: 0 <= t < |ps| ==> DistanceOf(root, fleet[ps[i]], p) <= DistanceOf(root, fleet[ps[t]], p)
    requires forall t :: 0 <= t < i ==> DistanceOf(root, fleet[ps[i]], p) < DistanceOf(root, fleet[ps[t]], p)
    ensures IsNearest(root, fleet, p, ps[i])
  {
    var k := ps[i];
    forall j | 0 <= j < |fleet| && fleet[j].available
      ensures DistanceOf(root, fleet[k], p) <= DistanceOf(root, fleet[j], p)
      ensures j < k ==> DistanceOf(root, fleet[k], p) < DistanceOf(root, fleet[j], p)
    {
      var t :| 0 <= t < |ps| && ps[t] == j;
    }
  }

  /**
   * The fixed nearest-driver rule: the first minimum-distance driver among the available
   * ones, or None when no driver is available.
   */
  function Nearest(root: real -> real, fleet: seq<DriverState>, p: Point): (k: Option<nat>)
    ensures k.None? <==> !AnyAvailable(fleet)
    ensures k.Some? ==> IsNearest(root, fleet, p, k.value)
  {
    var ps := AvailablePositions(fleet);
    if ps == [] then None
    else
      var key := Distances(root, fleet, p);
      var i := FirstMinAt(ps, key);
      FirstMinIsNearest(root, fleet, p, ps, i);
      Some(ps[i])
  }

  /**
   * The unfiltered nearest-driver rule of the buggy versions: the first minimum-distance
   * driver over the whole list, available or not; None for an empty list.
   */
  function NearestIgnoringAvailability(root: real -> real, fleet: seq<DriverState>, p: Point): (k: Option<nat>)
    ensures k.None? <==> fleet == []
    ensures k.Some? ==> k.value < |fleet|
    ensures k.Some? ==> forall j :: 0 <= j < |fleet| ==> DistanceOf(root, fleet[k.value], p) <= DistanceOf(root, fleet[j], p)
    ensures k.Some? ==> forall j :: 0 <= j < k.value ==> DistanceOf(root, fleet[k.value], p) < DistanceOf(root, fleet[j], p)
  {
    if fleet == [] then None
    else
      var ps, key := Positions(|fleet|), Distances(root, fleet, p);
      var i := FirstMinAt(ps, key);
      assert forall j :: 0 <= j < |fleet| ==> ps[j] == j && key[ps[j]] == DistanceOf(root, fleet[j], p);
      Some(ps[i])
  }

  lemma {:induction false} AvailableFromAll(fleet: seq<DriverState>, from: nat)
    requires from <= |fleet|
    ensures AvailableFrom(AllAvailable(fleet), from) == Positions(|fleet|)[from..]
    decreases |fleet| - from
  {
    var all := AllAvailable(fleet);
    if from < |fleet| {
      assert all[from].available;
      assert AvailableFrom(all, from) == [from] + AvailableFrom(all, from + 1);
      AvailableFromAll(fleet, from + 1);
      assert Positions(|fleet|)[from..] == [from] + Positions(|fleet|)[from + 1..];
    }
  }

  /**
   * The buggy rule is the fixed rule applied as if every driver were available:
   * ignoring availability is its only difference.
   */
  lemma UnfilteredIsFixedOnAllAvailable(root: real -> real, fleet: seq<DriverState>, p: Point)
    ensures NearestIgnoringAvailability(root, fleet, p) == Nearest(root, AllAvailable(fleet), p)
  {
    var all := AllAvailable(fleet);
    AvailableFromAll(fleet, 0);
    assert AvailablePositions(all) == Positions(|fleet|);
    assert Distances(root, all, p) == Distances(root, fleet, p);
  }

  /** When every driver is available, the buggy and the fixed rules pick the same driver. */
  lemma UnfilteredAgreesWhenAllAvailable(root: real -> real, fleet: seq<DriverState>, p: Point)
    requires forall i :: 0 <= i < |fleet| ==> fleet[i].available
    ensures NearestIgnoringAvailability(root, fleet, p) == Nearest(root, fleet, p)
  {
    UnfilteredIsFixedOnAllAvailable(root, fleet, p);
    assert AllAvailable(fleet) == fleet;
  }

  /** The unfiltered rule returns None only for an empty list, and a nearest driver of the whole list otherwise. */
  lemma UnfilteredIsNearestOfAll(root: real -> real, fleet: seq<DriverState>, p: Point)
    ensures NearestIgnoringAvailability(root, fleet, p).None? <==> fleet == []
    ensures NearestIgnoringAvailability(root, fleet, p).Some? ==>
      IsNearest(root, AllAvailable(fleet), p, NearestIgnoringAvailability(root, fleet, p).value)
  {
    UnfilteredIsFixedOnAllAvailable(root, fleet, p);
    if fleet != [] {
      assert AllAvailable(fleet)[0].available;
    }
  }

  /**
   * Comparing distances and comparing squared distances select the same driver, so the
   * nearest driver does not depend on which square root is used.
   */
  lemma NearestBySquares(root: real -> real, fleet: seq<DriverState>, p: Point, k: nat)
    requires IsRoot(root)
    ensures IsNearest(root, fleet, p, k) <==> IsNearest(x => x, fleet, p, k)
  {
    forall a: DriverState, b: DriverState
      ensures DistanceOf(root, a, p) < DistanceOf(root, b, p) <==> DistanceOf(x => x, a, p) < DistanceOf(x => x, b, p)
    {
      DistanceOrder(root, a.location, b.location, p);
    }
  }
}
