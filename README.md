# TourGuide service core in Dafny

A model of the sequential logic of `TourGuideService`, the service at the heart of the
TourGuide application, which tracks users' positions and points them to nearby
attractions. It covers four things:

- **Nearby attractions.** `getNearByAttractions` sorts the attraction catalog by
  distance from a visited location. The sort is stable. The query keeps the first five.
  `getNearbyAttractionsWithDetails` turns each kept attraction into a display record.
  The record holds the attraction's name and coordinates, the user's coordinates, the
  distance and the reward points. These are the modules `Ranking` (`ranking.dfy`) and
  `Nearby` (`nearby.dfy`).
- **User registry.** `addUser`, `getUser` and `getAllUsers` work on an in-memory map
  keyed by user name. `addUser` inserts only when the name is absent. This is the class
  `Service.TourGuideService` (`service.dfy`).
- **Cached-or-fresh location.** `getUserLocation` returns the latest visited location
  when the user has one. Otherwise it calls `trackUserLocation`, which appends a fresh
  GPS reading to the history, lets the rewards service update the user's rewards, and
  returns the reading.
- **Cumulative reward points.** `getTripDeals` sums the user's reward points as a Java
  `int` and passes the sum to the trip pricer (module `RewardPoints`,
  `reward_points.dfy`).

The entities are in `types.dfy`: `Location`, `Attraction`, `VisitedLocation`,
`UserReward`, `UserPreferences`, `Provider`, and the mutable class `User`. `User` holds
the history, rewards, preferences and trip deals that the service updates in place.

The external libraries are taken as given functions. The distance from the rewards
service is a parameter `distance: (Location, Location) -> real`. The reward-point lookup
is a parameter `rewardPoints: (Attraction, User) -> Int32`. The catalog is the sequence
`attractions`. The GPS reading of one call is a parameter `reading` of that call. The
reward computation and the trip pricer are functions the service is built with.

The nearest-attraction step returns only the attractions. When the detail query builds
each record, it asks the rewards service for the distance again
(TourGuideService.java:153). `NearbyAttractionsWithDetails` does the same. Because the
distance is a function, a record's distance is the one the ranking used.

## Model

| member | source | states |
|---|---|---|
| `Ranking.StableSort` | TourGuide/src/main/java/com/openclassrooms/tourguide/service/TourGuideService.java:137-139 | The sorted catalog has the same length and the same elements (as a multiset) as the input, and its distances never decrease. |
| `Ranking.StableSortIsStable` | TourGuide/src/main/java/com/openclassrooms/tourguide/service/TourGuideService.java:137-139 | The sort is stable. For every distance, the attractions at that distance appear in the result in catalog order. |
| `Ranking.StableSortUnique` | TourGuide/src/main/java/com/openclassrooms/tourguide/service/TourGuideService.java:137-139 | Two sorted sequences that agree, key by key, on their elements and order are equal. So a stable ascending sort's result depends only on its input, whatever the algorithm. |
| `Nearby.NearByAttractions` | TourGuide/src/main/java/com/openclassrooms/tourguide/service/TourGuideService.java:133-143 | The query returns exactly min(5, catalog size) attractions. They are drawn from the catalog, none more often than it appears there. Their distance from the visited location never decreases. |
| `Nearby.LeftOutAreFarther` | TourGuide/src/main/java/com/openclassrooms/tourguide/service/TourGuideService.java:137-141 | Any catalog attraction left out (by multiplicity) is at least as far from the visited location as every returned attraction. |
| `Nearby.KeepsCatalogOrder` | TourGuide/src/main/java/com/openclassrooms/tourguide/service/TourGuideService.java:137-141 | Returned attractions at equal distance keep catalog order. For every distance they form a prefix of the catalog's attractions at that distance. |
| `Nearby.IsPrefixOfAnyStableSort` | TourGuide/src/main/java/com/openclassrooms/tourguide/service/TourGuideService.java:137-141 | Take any sorted, stable rearrangement of the catalog. Its first min(5, catalog size) entries are exactly the query's result. |
| `Nearby.NearbyAttractionsWithDetails` | TourGuide/src/main/java/com/openclassrooms/tourguide/service/TourGuideService.java:149-168 | There is one record per nearby attraction, in the same order. Each record holds that attraction's name and coordinates, the query location's coordinates, the attraction's distance from the query location, and the attraction's reward points for the user. |
| `Nearby.DetailsAreNearestFirst` | TourGuide/src/main/java/com/openclassrooms/tourguide/service/TourGuideService.java:150-167 | There are min(5, catalog size) records and their distances never decrease. Record i describes the i-th nearby attraction, which is a catalog attraction, with its true distance and points. |
| `Nearby.DetailsLeaveOutOnlyFarther` | TourGuide/src/main/java/com/openclassrooms/tourguide/service/TourGuideService.java:150-163 | A catalog attraction named in no record is at least as far away as the distance shown in every record. |
| `RewardPoints.Wrap` | TourGuide/src/main/java/com/openclassrooms/tourguide/service/TourGuideService.java:114 | Java's `int` arithmetic gives the one in-range value congruent to the exact result modulo 2^32. An exact result that is already in range is unchanged. |
| `RewardPoints.SumFromIsWrappedTotal` | TourGuide/src/main/java/com/openclassrooms/tourguide/service/TourGuideService.java:114 | Adding the points left to right with `int` wrap-around at each step gives the wrap of the exact total. |
| `RewardPoints.CumulativeRewardPoints` | TourGuide/src/main/java/com/openclassrooms/tourguide/service/TourGuideService.java:114 | The cumulative points passed to pricing equal the exact sum of `rewardPoints` over the reward list whenever that sum fits in an `int`. They always agree with it modulo 2^32. |
| `RewardPoints.CumulativeRewardPointsAppend` | TourGuide/src/main/java/com/openclassrooms/tourguide/service/TourGuideService.java:114 | The cumulative points of two reward lists one after the other are the `int` sum of their cumulative points. Summing in pieces gives the value the stream gives. |
| `RewardPoints.CumulativeRewardPointsBounds` | TourGuide/src/main/java/com/openclassrooms/tourguide/service/TourGuideService.java:114 | Suppose no reward is negative and the exact total fits in an `int`. Then the points handed to the pricer are non-negative and at least any single reward's points. |
| `Service.Inserted` | TourGuide/src/main/java/com/openclassrooms/tourguide/service/TourGuideService.java:107-111 | After `addUser` the user's name is a key. The user is filed under it only if the name was absent. No existing entry is overwritten, and no other key is added or changed. |
| `Service.InsertedIdempotent` | TourGuide/src/main/java/com/openclassrooms/tourguide/service/TourGuideService.java:107-111 | Adding the same user twice is the same as adding it once. |
| `Service.InsertedKeyedByName` | TourGuide/src/main/java/com/openclassrooms/tourguide/service/TourGuideService.java:107-111 | Adding a user keeps every registered user filed under its own name. |
| `Service.TourGuideService.constructor` | TourGuide/src/main/java/com/openclassrooms/tourguide/service/TourGuideService.java:51-54 | A new service holds the given providers and an empty registry, which is keyed by name. |
| `Service.TourGuideService.AddUser` | TourGuide/src/main/java/com/openclassrooms/tourguide/service/TourGuideService.java:107-111 | The registry becomes `Inserted(old registry, user)` and stays keyed by name. |
| `Service.TourGuideService.GetUser` | TourGuide/src/main/java/com/openclassrooms/tourguide/service/TourGuideService.java:99-101 | The result is the user filed under the name. While the registry is keyed by name, that user carries the name. If the name is absent, the result is `None`. |
| `Service.TourGuideService.GetAllUsers` | TourGuide/src/main/java/com/openclassrooms/tourguide/service/TourGuideService.java:103-105 | The list has one entry per registered name. Every entry is a registered user, every registered user is in it, and no user appears twice. |
| `Service.TourGuideService.TrackUserLocation` | TourGuide/src/main/java/com/openclassrooms/tourguide/service/TourGuideService.java:122-127 | The reading is appended to the history and returned. The rewards become the rewards service's result on the new history. Nothing else changes. |
| `Service.CachedOrFresh` | TourGuide/src/main/java/com/openclassrooms/tourguide/service/TourGuideService.java:93-97 | The answer is always the last entry of the resulting history. A non-empty history is left unchanged. An empty history becomes exactly the fresh reading. |
| `Service.CachedOrFreshIsStable` | TourGuide/src/main/java/com/openclassrooms/tourguide/service/TourGuideService.java:93-97 | After a first lookup, later lookups return the same location, keep the same history and ignore their readings. |
| `Service.TourGuideService.GetUserLocation` | TourGuide/src/main/java/com/openclassrooms/tourguide/service/TourGuideService.java:93-97 | The returned location and the new history are those of `CachedOrFresh`. On the cached path the rewards are unchanged. On the fresh path the rewards service runs on the one-entry history. |
| `Service.TourGuideService.GetTripDeals` | TourGuide/src/main/java/com/openclassrooms/tourguide/service/TourGuideService.java:113-120 | The pricer is asked with the API key, the user's id and preferences, and `CumulativeRewardPoints` of the user's rewards. Its offers are stored on the user and returned. Nothing else changes. |

## Left out

- `trackUserLocationAsync`, `trackAllUsersLocation`, `shutdownService` and the thread pool (TourGuideService.java:47-87): their purpose is concurrency and joining futures. Only the sequential `trackUserLocation` they run is modelled.
- The great-circle distance of the rewards service is a parameter. Its floating-point formula, and its symmetry and zero-distance properties, are not modelled. Distances are reals, so the way `Double.compare` orders NaN and -0.0 is not modelled.
- `gpsUtil.getUserLocation` is random and reads the clock. Each call's answer is the parameter `reading`.
- `gpsUtil.getAttractions` is the parameter `attractions`. The model treats the catalog as the same on every call.
- `rewardsService.getRewardPoints` is a parameter function, and `rewardsService.calculateRewards` is a fixed function of the user's id, history and current rewards. Any randomness in the points provider is not modelled. The query calls it once per record, so one call's answer is all the model needs. The rule that gives at most one reward per attraction lives in the rewards service, whose source is not part of this model, so nothing is claimed about it.
- `TrackUserLocation`, `GetUserLocation`: the `userId` of `reading` is left unconstrained. In the source, the GPS call is keyed by the user's id (TourGuideService.java:123), so its reading belongs to that user. No proof here depends on it.
- `tripPricer.getPrice` is a fixed function of its arguments. What it returns is not modelled.
- `getUserRewards` (TourGuideService.java:89-91) is a plain getter. The model reads `user.userRewards` directly.
- Test-user generation is not modelled: `initializeInternalUsers`, `generateUserLocationHistory` and the random coordinate and time helpers (TourGuideService.java:188-223). The constructor's test mode, which fills the registry with these users, is left out with them, so a new service starts empty.
- The tracker, the shutdown hook, logging and `Locale.setDefault` (TourGuideService.java:55-64, 170-176) are process plumbing and are not modelled.
- The detail records are `HashMap`s with label strings as keys. The model uses a datatype with named fields instead.
- The `User` class is not part of this model's source. Its getters are modelled from how the service uses them: the last visited location is the last element of the history. Its contact fields are unused by the core and omitted.
- `getUser` returns `null` for an unknown name. The model returns `None`. What callers then do with `null` is not modelled.
- `TourGuideController.java` only routes HTTP requests to the service, and `TestPerformance.java` holds disabled timing tests. Neither is modelled.
