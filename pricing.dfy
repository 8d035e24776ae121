/** Trip pricing: the metered fare and the surge multiplier of the fixed versions. */
module Pricing {
  import Geometry

  const BaseFare: real := 2.50
  const PerMileRate: real := 1.20
  const PerMinuteRate: real := 0.25

  /** The fare before surge: base fare plus distance and time charges. */
  function MeteredFare(distance: real, time: real): real
  {
    BaseFare + distance * PerMileRate + time * PerMinuteRate
  }

  /**
   * calculate_fare / calculateFare of the fixed versions: the surge multiplies the whole
   * metered fare.  No argument is range-checked, so negative values are priced as well.
   */
  function Fare(distance: real, time: real, surge: real): (f: real)
    ensures 0.0 <= distance && 0.0 <= time && 0.0 <= surge ==> BaseFare * surge <= f
  {
    MeteredFare(distance, time) * surge
  }

  /** The fare is the closed-form formula (2.50 + 1.20 d + 0.25 t) * s. */
  lemma FareFormula(distance: real, time: real, surge: real)
    ensures Fare(distance, time, surge) == (2.50 + 1.20 * distance + 0.25 * time) * surge
  {
  }

  /** The documented trip: 10 miles, 15 minutes, surge 1.5 costs 27.375. */
  lemma FareExample()
    ensures Fare(10.0, 15.0, 1.5) == 27.375
  {
  }

  /** Without surge the fare is the metered fare, and surges add up linearly. */
  lemma FareIsLinearInSurge(distance: real, time: real, s1: real, s2: real)
    ensures Fare(distance, time, 1.0) == MeteredFare(distance, time)
    ensures Fare(distance, time, s1 + s2) == Fare(distance, time, s1) + Fare(distance, time, s2)
  {
  }

  /** With a non-negative surge, a longer or slower trip never costs less. */
  lemma FareMonotoneInTrip(d1: real, t1: real, d2: real, t2: real, surge: real)
    requires d1 <= d2 && t1 <= t2 && 0.0 <= surge
    ensures Fare(d1, t1, surge) <= Fare(d2, t2, surge)
  {
    var m1, m2 := MeteredFare(d1, t1), MeteredFare(d2, t2);
    Geometry.ProductAtMost(0.0, m2 - m1, 0.0, surge);
    assert (m2 - m1) * surge == m2 * surge - m1 * surge;
  }

  /** For a non-negative metered fare, a higher surge never lowers the fare. */
  lemma FareMonotoneInSurge(distance: real, time: real, s1: real, s2: real)
    requires 0.0 <= MeteredFare(distance, time) && s1 <= s2
    ensures Fare(distance, time, s1) <= Fare(distance, time, s2)
  {
    var m := MeteredFare(distance, time);
    Geometry.ProductAtMost(0.0, m, 0.0, s2 - s1);
    assert m * (s2 - s1) == m * s2 - m * s1;
  }
}
