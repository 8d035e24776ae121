# Ride-sharing dispatch, modelled in Dafny

The modelled system is a small ride-sharing dispatch engine. It comes in two versions,
each written in Python and in Java:

- a reference ("fixed") version;
- a debugging-exercise ("buggy") version with four deliberate defects.

A `DispatchSystem` holds a list of `Driver` objects. Each driver has a name, a location,
a rating and an availability flag. The system does four things:

- It prices a trip: base fare 2.50, plus 1.20 per mile, plus 0.25 per minute, times the
  surge multiplier.
- It assigns the nearest available driver to a passenger.
- It picks the "best" available driver, the one with the highest score
  `rating / (distance + 1)`.
- Each driver reports its status as a dictionary.

The buggy versions add the surge instead of multiplying by it. They ignore availability
when assigning. They compute each distance once per driver in the list and average the
copies. Their status has no rating.

Layout:

- `results.dfy` (module `Results`): `Option`, `Result` and the two error kinds.
  - `InvalidInput` stands for a Python `TypeError` or a Java `IllegalArgumentException`.
  - `NoAvailableDriver` stands for a Python `ValueError` or a Java `NoSuchElementException`.
- `geometry.dfy` (module `Geometry`): points, the location check, and Euclidean distance.
  - The square root of the runtime library (`** 0.5`, `Math.sqrt`) is a parameter `root`.
  - Where a proof needs it, `root` is required to satisfy `IsRoot`: non-negative, and it
    squares back.
- `fleet.dfy` (module `Fleet`): the `Driver` class with mutable fields, the checked
  constructor `NewDriver`, and the status dictionary.
  - `States(drivers)` is a value snapshot of the fleet. The selection rules are stated on it.
- `pricing.dfy` (module `Pricing`): the reference fare.
- `selection.dfy` (module `Selection`): the selection rules as pure specifications.
  - `IsNearest` and `IsBest` describe the result of a scan that keeps the first driver on ties.
  - `Nearest` models Python's filter followed by `min(key=...)`.
  - `NearestIgnoringAvailability` models the unfiltered `min`.
- `fixed_dispatch.dfy` (module `FixedDispatch`) and `buggy_dispatch.dfy` (module
  `BuggyDispatch`): the two `DispatchSystem` classes.
  - The Java loops are methods. Their `ensures` tie the result to the specifications.
- `scenarios.dfy` (module `Scenarios`): the source's unit tests, restated and proved.
  - The fleet is Alice at (0, 0), Bob at (3, 4) and busy, and Charlie at (1, 1).

The dispatch system keeps the caller's driver objects by reference. A flag that the caller
clears on a driver in the list is therefore seen by the next selection. The selection
methods have no `modifies` clause, so they change nothing.

Two points about pricing follow the code closely:

- The source's tests price 10 miles, 15 minutes and surge 1.5 as
  `(2.50 + 10*1.20 + 15*0.25) * 1.5`, which is 27.375 (driverDispatchComplete.py:122,
  RideSharingDebuggingExerciseFixed.java:119). `Pricing.FareExample` proves that value.
- No version of the code range-checks its arguments (driverDispatchComplete.py:30-34 checks
  only that they are numbers). `Pricing.Fare` therefore prices negative arguments as well,
  and the pricing lemmas assume only what each of them needs.

## Model

| member | source | states |
|---|---|---|
| Geometry.AsPoint | driverDispatchComplete.py:41-42 | A location is accepted exactly when it is present and has two components, and the point carries those components. The same check is at RideSharingDebuggingExerciseFixed.java:22-24. |
| Geometry.DistanceIsMetric | RideSharingDebuggingExerciseFixed.java:67-71 | The distance helper is non-negative and symmetric. It is zero exactly for identical points. |
| Geometry.DistanceOrder | RideSharingDebuggingExerciseFixed.java:67-71 | Comparing two distances to a point gives the same answer as comparing their squared distances, for any square root. |
| Fleet.Driver.constructor | driverDispatchComplete.py:89-92 | The new driver's fields are the given name, location, rating and flag. |
| Fleet.NewDriver | driverDispatchComplete.py:80-92 | The driver is rejected with InvalidInput exactly when the name is missing or the location is not a pair. Otherwise the result is a fresh driver holding the arguments, with availability defaulting to true. The Java constructor at RideSharingDebuggingExerciseFixed.java:80-88 makes the same checks. |
| Fleet.Driver.Status | driverDispatchComplete.py:94-104 | The status has exactly the keys name, location, rating and available, each holding the driver's current field. |
| Fleet.Driver.GetStatus | RideSharingDebuggingExerciseFixed.java:106-113 | The four puts build exactly the reference status. |
| Fleet.StatusDeterminesState | driverDispatchComplete.py:94-104 | Two drivers with equal full statuses have equal fields: the status loses nothing. |
| Fleet.States | driverDispatchComplete.py:22 | The snapshot has one entry per driver in list order, each equal to that driver's current fields. |
| Pricing.Fare | driverDispatchComplete.py:24-34 | The fixed fare: the metered fare times the surge. A trip of non-negative length and duration under a non-negative surge costs at least the base fare times the surge. The Java version is at RideSharingDebuggingExerciseFixed.java:15-19. |
| Pricing.FareFormula | driverDispatchComplete.py:24-34 | The fare is (2.50 + 1.20 * distance + 0.25 * time) * surge. The same formula is at RideSharingDebuggingExerciseFixed.java:15-19. |
| Pricing.FareExample | driverDispatchComplete.py:119-124 | 10 miles, 15 minutes and surge 1.5 cost 27.375. |
| Pricing.FareIsLinearInSurge | driverDispatchComplete.py:33-34 | Surge 1 gives the metered fare, and the fare is additive in the surge. |
| Pricing.FareMonotoneInTrip | driverDispatchComplete.py:33-34 | With a non-negative surge, a longer or slower trip never costs less, for any distances and times. |
| Pricing.FareMonotoneInSurge | driverDispatchComplete.py:33-34 | With a non-negative metered fare, a higher surge never lowers the fare. |
| Selection.Distances | driverDispatchComplete.py:48-50 | The key of each position is that driver's distance to the passenger. |
| Selection.AllAvailable | driverDispatchDebug.py:59-60 | The fleet seen by the unfiltered rule: the same drivers, every flag set. |
| Selection.NoneAvailable | driverDispatchComplete.py:155-160 | Clearing every flag leaves no available driver. `Scenarios.ClearAvailability` shows that the test's loop produces exactly this fleet. |
| Geometry.Distance | RideSharingDebuggingExerciseFixed.java:67-71 | For a genuine square root, the distance is the non-negative number whose square is dx*dx + dy*dy. Python computes the same inline at driverDispatchComplete.py:48-50 and 68-69. |
| Selection.Score | driverDispatchComplete.py:70 | The score times (distance + 1) is the rating, so a driver standing at the point scores exactly their rating. |
| Selection.AvailableFrom | driverDispatchComplete.py:44 | From a start position on, the result lists exactly the available drivers, in increasing list order. |
| Selection.AvailablePositions | driverDispatchComplete.py:44 | The comprehension keeps exactly the available drivers, in list order. It is empty exactly when no driver is available. |
| Selection.Positions | driverDispatchDebug.py:60 | Every position of the list, in order. |
| Selection.FirstMinAt | driverDispatchComplete.py:52 | `min(key=...)` returns an item whose key is no larger than any other, and strictly smaller than every earlier one. |
| Selection.NearestSkipsUnavailable | RideSharingDebuggingExerciseFixed.java:29-31 | Skipping a busy driver keeps the nearest-so-far. |
| Selection.NearestKeepsOnTie | RideSharingDebuggingExerciseFixed.java:32-36 | A driver that is not strictly nearer leaves the candidate unchanged. |
| Selection.NearestTakesCloser | RideSharingDebuggingExerciseFixed.java:32-36 | The first available driver, or a strictly nearer one, becomes the candidate. |
| Selection.BestSkipsUnavailable | driverDispatchComplete.py:65-66 | Skipping a busy driver keeps the best-so-far. |
| Selection.BestKeepsOnTie | driverDispatchComplete.py:70-73 | A driver that does not score strictly higher leaves the candidate unchanged. |
| Selection.BestTakesHigher | driverDispatchComplete.py:70-73 | The first available driver, or a strictly higher-scoring one, becomes the candidate. |
| Selection.NearestIsUnique | driverDispatchComplete.py:52 | At most one position is the first nearest available driver: ties are decided by list order. |
| Selection.BestIsUnique | driverDispatchComplete.py:71-73 | At most one position is the first best available driver: ties are decided by list order. |
| Selection.FirstMinIsNearest | driverDispatchComplete.py:44-52 | The first minimum over the available positions is the first nearest available driver. |
| Selection.Nearest | driverDispatchComplete.py:44-52 | There is no result exactly when no driver is available. Otherwise the result is the first nearest available driver. |
| Selection.NearestIgnoringAvailability | driverDispatchDebug.py:55-60 | `min(self.drivers, key=distance)`: nothing exactly for an empty list. Otherwise the result is a position of the list whose distance is no larger than any other and strictly smaller than every earlier one, whatever the availability flags. |
| Selection.AvailableFromAll | driverDispatchDebug.py:60 | With every flag set, the available positions are all positions. |
| Selection.UnfilteredIsFixedOnAllAvailable | driverDispatchDebug.py:59-60 | The unfiltered `min` equals the fixed rule applied to the fleet with every flag set. Ignoring availability is its only difference. |
| Selection.UnfilteredAgreesWhenAllAvailable | driverDispatchDebug.py:59-60 | When every driver is available, the buggy and fixed rules pick the same driver. |
| Selection.UnfilteredIsNearestOfAll | driverDispatchDebug.py:55-60 | The unfiltered rule yields nothing exactly for an empty list. Otherwise it yields the first nearest driver, available or not. |
| Selection.NearestBySquares | RideSharingDebuggingExerciseFixed.java:67-71 | The nearest driver is the same whether distances or squared distances are compared. |
| FixedDispatch.DispatchSystem.constructor | driverDispatchComplete.py:18-22 | The system keeps the caller's list of drivers. |
| FixedDispatch.DispatchSystem.Create | RideSharingDebuggingExerciseFixed.java:8-13 | A missing list is rejected with InvalidInput. Otherwise the new system holds the list. Python's non-list check is at driverDispatchComplete.py:20-21. |
| FixedDispatch.DispatchSystem.AssignDriver | driverDispatchComplete.py:36-52 | A malformed location gives InvalidInput. With no available driver the result is NoAvailableDriver. Otherwise the result is the first nearest available driver. |
| FixedDispatch.DispatchSystem.AssignDriverByScan | RideSharingDebuggingExerciseFixed.java:21-42 | The one-pass loop with strict `<` returns exactly what AssignDriver returns, errors included. |
| FixedDispatch.DispatchSystem.FindBestDriver | driverDispatchComplete.py:54-76 | A malformed location gives InvalidInput. With no available driver the result is NoAvailableDriver. Otherwise the result is the first available driver with the highest rating / (distance + 1). The Java loop at RideSharingDebuggingExerciseFixed.java:44-65 is the same. |
| BuggyDispatch.CalculateFare | driverDispatchDebug.py:31-44 | The defective fare is the unsurged fare plus the surge. The Java version is at RideSharingDebuggingExerciseBuggy.java:16-21. |
| BuggyDispatch.AdditiveFareExample | driverDispatchDebug.py:31-44 | The documented trip costs 19.75 with the surge added, against the intended 27.375. RideSharingDebuggingExerciseBuggy.java:16-21 computes the same. |
| BuggyDispatch.AdditiveSurgeShifts | driverDispatchDebug.py:43-44 | The added surge only shifts the price: the difference between two surges is the difference of the surges. |
| BuggyDispatch.AdditiveAgreesExactlyWhen | driverDispatchDebug.py:43-44 | The defective and intended fares agree exactly when (metered - 1) * (surge - 1) == 1. |
| BuggyDispatch.AdditiveUnderchargesExactlyWhen | driverDispatchDebug.py:43-44 | The defective fare is strictly below the intended one exactly when (metered - 1) * (surge - 1) > 1. The documented surge of 1.5 on an 18.25 metered fare is such a case. |
| BuggyDispatch.AdditiveUndercharges | driverDispatchDebug.py:43-44 | With surge at least 2 and metered fare above 2, the defective fare is strictly below the intended one. |
| BuggyDispatch.Status | driverDispatchDebug.py:109-118 | The status has exactly the keys name, location and available, each holding the current field. |
| BuggyDispatch.GetStatus | RideSharingDebuggingExerciseBuggy.java:108-115 | The three puts build exactly that status. |
| BuggyDispatch.StatusMissesRating | driverDispatchDebug.py:114-118 | The defective status is the reference status without its "rating" entry. |
| BuggyDispatch.StatusCannotTellRatings | driverDispatchDebug.py:114-118 | Drivers that differ only in rating have equal defective statuses. |
| BuggyDispatch.DispatchSystem.constructor | driverDispatchDebug.py:25-29 | The system keeps the caller's list of drivers. |
| BuggyDispatch.DispatchSystem.Create | RideSharingDebuggingExerciseBuggy.java:8-13 | A missing list is rejected with InvalidInput. Otherwise the new system holds the list. |
| BuggyDispatch.DispatchSystem.AssignDriver | driverDispatchDebug.py:46-60 | A malformed location gives InvalidInput. An empty list gives NoAvailableDriver, because `min` raises. Otherwise the result is the first nearest driver with availability ignored. |
| BuggyDispatch.DispatchSystem.AssignDriverByScan | RideSharingDebuggingExerciseBuggy.java:24-38 | A malformed location gives InvalidInput. Otherwise the call succeeds and yields null exactly for an empty list. Any driver it yields is the one AssignDriver picks. |
| BuggyDispatch.RepeatedAverageDistance | driverDispatchDebug.py:79-84 | Summing the distance once per listed driver and dividing by the list length gives back the distance. The Java inner loop is at RideSharingDebuggingExerciseBuggy.java:51-55. |
| BuggyDispatch.DispatchSystem.FindBestDriver | driverDispatchDebug.py:62-91 | The errors and the result are those of the fixed version: the first available driver with the highest score. The nested loop only costs time. The Java version is at RideSharingDebuggingExerciseBuggy.java:41-66. |
| BuggyDispatch.AssignAgreesWhenAllAvailable | driverDispatchDebug.py:46-60 | Over the same drivers, all of them available, the defective and fixed assignments return the same result. |
| Scenarios.NearestFromNearOrigin | driverDispatchComplete.py:130-133 | From (0.1, 0.1), the nearest available test driver is Alice. |
| Scenarios.UnfilteredFromNearOrigin | driverDispatchDebug.py:144-148 | From (0.1, 0.1), the unfiltered rule also gives Alice. |
| Scenarios.BestFromOrigin | driverDispatchComplete.py:147-153 | From (0, 0), Alice, with score 4.8, is the one best driver. Charlie scores below 2.45. |
| Scenarios.UnfilteredPicksBusyDriver | driverDispatchDebug.py:59-60 | From (3, 4), the unfiltered rule gives the busy Bob, while the fixed rule gives Charlie. |
| Scenarios.NewFixture | driverDispatchComplete.py:113-117 | The three test drivers are fresh objects whose snapshot is the test fleet. |
| Scenarios.FixedAssignTest | driverDispatchComplete.py:130-133 | The scan assigns Alice to a passenger at (0.1, 0.1). The Java test is at RideSharingDebuggingExerciseFixed.java:131-135. |
| Scenarios.FixedBestTest | driverDispatchComplete.py:147-153 | The best driver from (0, 0) is Alice. |
| Scenarios.ClearAvailability | driverDispatchComplete.py:157-158 | Clearing the flags through the system's list leaves the snapshot equal to the old snapshot with every flag cleared; names, locations and ratings are unchanged. |
| Scenarios.FixedNoneLeftTest | driverDispatchComplete.py:155-164 | After every flag is cleared through the system's list, the returned drivers' snapshot is the test fleet with every flag cleared. Finding the best driver then fails with NoAvailableDriver, and a location that is not a pair fails with InvalidInput. |
| Scenarios.BuggyAssignTest | driverDispatchDebug.py:144-148 | The defective assignment still gives Alice from (0.1, 0.1). |
| Scenarios.BuggyBusyTest | RideSharingDebuggingExerciseBuggy.java:24-38 | The defective Java scan gives the busy Bob from (3, 4). |
| Scenarios.BuggyBestTest | RideSharingDebuggingExerciseBuggy.java:148-153 | The defective best-driver search still gives Alice from (0, 0). |

## Left out

- Floating point: the model computes over exact reals.
  - It does not model rounding, overflow to infinity or NaN.
  - Nor does it model the source's sentinels (`float('-inf')`, `Double.MAX_VALUE`,
    `-Double.MAX_VALUE`). They are modelled as "no candidate yet".
  - A Java distance at or above `Double.MAX_VALUE` would never be taken; the model
    does not capture that.
  - In floating point, averaging n copies of a distance need not give the distance back
    exactly.
- The square root is a parameter, not a definition. The results hold for any function
  satisfying `IsRoot`.
- The source's runtime type checks (`isinstance` on numbers and booleans) are guaranteed
  by Dafny's types and are not modelled as error paths.
  - The TypeError from `calculate_fare("10", 15, 1.5)` is one of these.
  - Only the checks that a value can fail once typed are modelled: missing or non-list
    driver lists, missing names, and locations that are missing or not pairs.
- Aliasing of the list itself is not modelled. The system's list is a `seq` of driver
  references fixed at construction, so a caller appending to the Python list afterwards is
  not seen. Mutation of the drivers themselves is modelled.
- A Java driver's location array is stored by reference. A caller writing into that array
  after construction is not modelled: a location is a value.
- Running time is not modelled. The buggy best-driver search is quadratic, but the model
  states only what it returns.
- Test printing, `unittest.main` and the Java `main` harness are not modelled. Their checks
  are restated as the `Scenarios` members.
- Java's getters (`getName`, `getCurrentLocation`, `getRating`, `isAvailable`) are plain
  field reads of the `Driver` class.
- BuggyDispatch.DispatchSystem.AssignDriver: with an empty list, Python's `min` raises
  `ValueError`. This is modelled as NoAvailableDriver, although the message differs from the
  fixed version's.
