# TourGuide reward engine — a Dafny model

TourGuide tracks users and rewards them for coming near tourist attractions.
This project models the core of that service in Dafny and proves properties of the model.

- **Reward attribution** (`RewardsService.calculateRewards`). The service takes a snapshot of the user's visit history and the attraction catalog. It collects the attraction names the user is already rewarded for and walks the catalog in order. It skips an attraction whose name is already rewarded. For any other attraction, the first visit of the history within `proximityBuffer` miles earns one `UserReward`, scored by the reward oracle.
- **The user record** (`User`). It holds an append-only visit history and a reward list that keeps one reward per attraction name.
- **The registry** (`TourGuideService`). It maps user names to users, refreshes or reuses a user's location, lists the five closest attractions, prices trips on the user's cumulative points, and generates the internal test users.

Files and modules:

- `Domain.dfy` (`Domain`): value types. Locations, attractions, visits, rewards, trip offers, `Option`/`Result` for null and thrown exceptions, and Java's 32-bit `int` with explicit wrap-around.
- `Users.dfy` (`Users`): the `User` class and the functions over reward lists that specify `addUserReward`.
- `Proximity.dfy` (`Proximity`): the nearness predicates and `getClosestAttractions` as a stable sort followed by a truncation.
- `Rewards.dfy` (`Rewards`): the specification of `calculateRewards` and its lemmas, plus the `RewardsService` class with the imperative `CalculateRewards`.
- `TourGuide.dfy` (`TourGuide`): the `TourGuideService` class, the point sum and the internal-user names.

Modelling choices:

- `calculateRewards` is a method with the source's nested loops, including `continue` and `break`. Its postcondition equates the new reward list with `Attribute`, a left fold of one-attraction steps over the catalog. All the listed properties are lemmas about `Attribute`.
- The nested-`for` form of `calculateRewards` (attraction outer, visit inner, first match wins) follows the code as written.
- The great-circle distance is a parameter `dist: (Location, Location) -> real`. Nearness is `dist(attraction, visit) <= proximityBuffer`. The 200-mile test is `dist <= 200`. Where a statement needs "a visit at the attraction's own coordinates is near it", it assumes `dist(p, p) == 0` and a non-negative buffer.
- These outside inputs are parameters:
  - RewardCentral's points: a function `(attractionId, userId) -> int`.
  - The location provider's answer to `getUserLocation`: a method argument.
  - The trip pricer: a function.
  - The random ids, coordinates and times of the generated users: functions indexed by user number and visit number.
- `getLastVisitedLocation` on an empty history returns `Err(IndexOutOfBounds)`, because `List.get` throws there. `getClosestAttractions` with a negative limit returns `Err(IllegalArgument)`, because `Stream.limit` throws there.
- `getUser` returns `None` for an absent name, as the code's `null` does; no error is reported. Likewise `getNearByAttractions` returns attractions only, without distances or points. In both cases the code is followed.
- The cumulative points passed to the trip pricer are an `IntStream` sum. The model wraps that sum to 32 bits, as the source does.
- The Java getters read the fields directly and are modelled as field reads. `userId` and `userName` are `const` fields, so they are fixed at construction. Each setter's `modifies` frame names only its own field.
- `UserPreferences.java` is not part of this model. Only the three fields the trip pricer reads are modelled, and the default-constructed value is a constructor argument.

## Model

| member | source | states |
|---|---|---|
| `Users.HasRewardFor` | TourGuide/src/main/java/com/openclassrooms/tourguide/user/User.java:180-181 | true exactly when some reward of the list is for an attraction of that name (index form and rewarded-name-set form) |
| `Users.WithReward` | TourGuide/src/main/java/com/openclassrooms/tourguide/user/User.java:179-184 | the list gains the reward at the end when no reward has its attraction name, else stays as it was; the rewarded names become the old names plus this one |
| `Users.WithRewardKeepsDistinct` | TourGuide/src/main/java/com/openclassrooms/tourguide/user/User.java:179-184 | conditional append preserves "reward attraction names are pairwise distinct" |
| `Users.WithRewardIdempotent` | TourGuide/src/main/java/com/openclassrooms/tourguide/user/User.java:179-184 | adding a second reward for an already-rewarded attraction name changes nothing |
| `Users.User.constructor` | TourGuide/src/main/java/com/openclassrooms/tourguide/user/User.java:48-53 | id, name, phone and e-mail are the arguments; history, rewards and trip offers start empty; no timestamp |
| `Users.User.SetPhoneNumber` | TourGuide/src/main/java/com/openclassrooms/tourguide/user/User.java:82-84 | sets the phone number and may change no other field |
| `Users.User.SetEmailAddress` | TourGuide/src/main/java/com/openclassrooms/tourguide/user/User.java:100-102 | sets the e-mail address and may change no other field |
| `Users.User.SetLatestLocationTimestamp` | TourGuide/src/main/java/com/openclassrooms/tourguide/user/User.java:120-122 | sets the timestamp (possibly null) and may change no other field |
| `Users.User.SetUserPreferences` | TourGuide/src/main/java/com/openclassrooms/tourguide/user/User.java:212-214 | sets the preferences and may change no other field |
| `Users.User.SetTripDeals` | TourGuide/src/main/java/com/openclassrooms/tourguide/user/User.java:223-225 | sets the trip offers and may change no other field |
| `Users.User.AddToVisitedLocations` | TourGuide/src/main/java/com/openclassrooms/tourguide/user/User.java:140-142 | the history grows by one at the end, earlier entries unchanged; nothing else changes |
| `Users.User.ClearVisitedLocations` | TourGuide/src/main/java/com/openclassrooms/tourguide/user/User.java:157-159 | the history becomes empty; rewards and all other fields are untouched |
| `Users.User.GetLastVisitedLocation` | TourGuide/src/main/java/com/openclassrooms/tourguide/user/User.java:167-169 | the most recently appended visit, or the index-out-of-bounds error exactly when the history is empty |
| `Users.User.AddUserReward` | TourGuide/src/main/java/com/openclassrooms/tourguide/user/User.java:179-184 | the reward list becomes `WithReward(old list, reward)` and keeps the distinct-names invariant |
| `Proximity.IsNear` | TourGuide/src/main/java/com/openclassrooms/tourguide/service/RewardsService.java:93-95 | true iff the distance from the attraction to the visit is at most the buffer; so a visit at distance zero is near under any non-negative buffer, and a negative buffer admits no visit at non-negative distance |
| `Proximity.IsWithinAttractionProximity` | TourGuide/src/main/java/com/openclassrooms/tourguide/service/RewardsService.java:73-75 | true iff the distance is at most the fixed 200 miles: the nearness test at a 200-mile buffer |
| `Proximity.NearImpliesWithinProximity` | TourGuide/src/main/java/com/openclassrooms/tourguide/service/RewardsService.java:73-95 | a visit near an attraction under a buffer of at most 200 miles also passes the fixed 200-mile proximity test |
| `Proximity.SortByDistance` | TourGuide/src/main/java/com/openclassrooms/tourguide/service/RewardsService.java:86-87 | the result is a permutation of the catalog, in non-decreasing distance, and equally distant attractions keep catalog order (stable sort) |
| `Proximity.ClosestAttractions` | TourGuide/src/main/java/com/openclassrooms/tourguide/service/RewardsService.java:84-90 | error exactly on a negative limit; otherwise min(limit, catalog size) catalog attractions, sorted by distance, none farther than any left out, ties taken first in catalog order |
| `Rewards.FirstNearIndex` | TourGuide/src/main/java/com/openclassrooms/tourguide/service/RewardsService.java:58-66 | the index of the earliest visit in history order that is near the attraction, or none exactly when no visit is near |
| `Rewards.Step` | TourGuide/src/main/java/com/openclassrooms/tourguide/service/RewardsService.java:54-67 | one outer iteration either leaves the list as it is (the name is rewarded, or no visit is near) or appends one reward with the first near visit and the oracle's points |
| `Rewards.Attribute` | TourGuide/src/main/java/com/openclassrooms/tourguide/service/RewardsService.java:44-70 | the reward list after the catalog-order left fold of one-attraction steps: rewards that existed before stay unchanged as a prefix, and at most one reward per catalog entry is appended |
| `Rewards.AttributeNames` | TourGuide/src/main/java/com/openclassrooms/tourguide/service/RewardsService.java:54-68 | the rewarded names afterwards are the names rewarded before plus the name of every catalog attraction that some visit is near |
| `Rewards.AttributeKeepsDistinct` | TourGuide/src/main/java/com/openclassrooms/tourguide/service/RewardsService.java:50-66 | no two rewards share an attraction name afterwards, provided none did before |
| `Rewards.AttributeNewRewards` | TourGuide/src/main/java/com/openclassrooms/tourguide/service/RewardsService.java:58-64 | every new reward is for a catalog attraction whose name was not rewarded before, carries the earliest near visit (not the closest) and the oracle's points for (attraction id, user id) |
| `Rewards.AttributeExactlyWhen` | TourGuide/src/main/java/com/openclassrooms/tourguide/service/RewardsService.java:54-68 | for a catalog with distinct names: an attraction gets a new reward if and only if its name was not rewarded before and some visit is near it |
| `Rewards.AttributeFollowsCatalog` | TourGuide/src/main/java/com/openclassrooms/tourguide/service/RewardsService.java:54 | new rewards appear in catalog order |
| `Rewards.AttributeSaturated` | TourGuide/src/main/java/com/openclassrooms/tourguide/service/RewardsService.java:54-57 | when every attraction with a near visit is already rewarded by name, the call adds nothing |
| `Rewards.AttributeIdempotent` | TourGuide/src/main/java/com/openclassrooms/tourguide/service/RewardsService.java:50-57 | a second call with the same history, catalog and buffer adds no rewards |
| `Rewards.AttributeRewardsVisited` | TourGuide/src/test/java/com/openclassrooms/tourguide/TestPerformance.java:91-104 | a history holding a visit at an attraction's own coordinates makes that attraction's name rewarded, so the reward list is non-empty |
| `Rewards.OneAttractionExample` | TourGuide/src/main/java/com/openclassrooms/tourguide/service/RewardsService.java:44-70 | one attraction, buffer 10, a visit at it followed by another visit, no earlier rewards: exactly one reward, on the first visit, with the oracle's points |
| `Rewards.RewardsService.constructor` | TourGuide/src/main/java/com/openclassrooms/tourguide/service/RewardsService.java:33-42 | keeps the catalog, distance and oracle; the buffer starts at the 10-mile default |
| `Rewards.RewardsService.SetProximityBuffer` | TourGuide/src/main/java/com/openclassrooms/tourguide/service/RewardsService.java:30-33 | sets the buffer used by later calls, nothing else |
| `Rewards.RewardsService.IsNearAttraction` | TourGuide/src/main/java/com/openclassrooms/tourguide/service/RewardsService.java:93-95 | true iff the visit is within the buffer now in force of the attraction, the same nearness the reward fold uses |
| `Rewards.RewardsService.GetRewardPoints` | TourGuide/src/main/java/com/openclassrooms/tourguide/service/RewardsService.java:106-108 | the oracle's value for (attraction id, user id), the same value the reward fold records |
| `Rewards.RewardsService.GetClosestAttractions` | TourGuide/src/main/java/com/openclassrooms/tourguide/service/RewardsService.java:84-90 | error exactly on a negative limit; otherwise min(limit, catalog size) attractions from the catalog in non-decreasing distance |
| `Rewards.RewardsService.CalculateRewards` | TourGuide/src/main/java/com/openclassrooms/tourguide/service/RewardsService.java:44-70 | only the user's reward list changes, and it becomes `Attribute` of the old list, the history, the catalog and the current buffer and oracle; keeps distinct names |
| `TourGuide.SumPointsConcat` | TourGuide/src/main/java/com/openclassrooms/tourguide/service/TourGuideService.java:106 | the exact point total of two concatenated reward lists is the sum of their totals |
| `TourGuide.AttributionAddsPoints` | TourGuide/src/main/java/com/openclassrooms/tourguide/service/TourGuideService.java:106 | after attribution the exact total is the old total plus the points of the appended rewards |
| `TourGuide.CumulativeRewardPoints` | TourGuide/src/main/java/com/openclassrooms/tourguide/service/TourGuideService.java:106 | the `int` sum of `rewardPoints` over the rewards: equal to the exact sum when that fits in 32 bits, congruent to it modulo 2^32 always |
| `TourGuide.DecimalStringInjective` | TourGuide/src/main/java/com/openclassrooms/tourguide/service/TourGuideService.java:147 | distinct user numbers give distinct decimal strings |
| `TourGuide.InternalUserNamesCount` | TourGuide/src/main/java/com/openclassrooms/tourguide/service/TourGuideService.java:146-147 | the names `internalUser0` to `internalUser(N-1)` are N distinct names |
| `TourGuide.Registered` | TourGuide/src/main/java/com/openclassrooms/tourguide/service/TourGuideService.java:99-103 | the key set gains the user's name; every existing entry is kept (never replaced); an absent name maps to the new user; "registered under its own name" is preserved |
| `TourGuide.RegisteredIdempotent` | TourGuide/src/main/java/com/openclassrooms/tourguide/service/TourGuideService.java:99-103 | adding a second user with a name already registered changes nothing |
| `TourGuide.TourGuideService.constructor` | TourGuide/src/main/java/com/openclassrooms/tourguide/service/TourGuideService.java:34-59 | in test mode the registry holds exactly the N generated users, keyed by their own names |
| `TourGuide.TourGuideService.GetUserRewards` | TourGuide/src/main/java/com/openclassrooms/tourguide/service/TourGuideService.java:61-63 | the user's own (live) reward list, in which no two rewards share an attraction name when the user's invariant holds |
| `TourGuide.TourGuideService.GetUser` | TourGuide/src/main/java/com/openclassrooms/tourguide/service/TourGuideService.java:71-73 | the user registered under the name, whose own name is that name, or none exactly when the name is absent |
| `TourGuide.TourGuideService.GetAllUsers` | TourGuide/src/main/java/com/openclassrooms/tourguide/service/TourGuideService.java:75-77 | a new sequence holding each registered user exactly once, and nothing else |
| `TourGuide.TourGuideService.AddUser` | TourGuide/src/main/java/com/openclassrooms/tourguide/service/TourGuideService.java:99-103 | the registry becomes `Registered(old registry, user)` |
| `TourGuide.TourGuideService.TrackUserLocation` | TourGuide/src/main/java/com/openclassrooms/tourguide/service/TourGuideService.java:114-119 | appends the provider's visit, then rewards are `Attribute` over the extended history; the returned visit is the new last visit |
| `TourGuide.TourGuideService.GetUserLocation` | TourGuide/src/main/java/com/openclassrooms/tourguide/service/TourGuideService.java:65-69 | non-empty history: returns the last visit and nothing changes; empty history: appends exactly the provider's visit, recomputes rewards and returns it; the user's distinct-names invariant is kept |
| `TourGuide.TourGuideService.CalculateAllRewardsInParallel` | TourGuide/src/main/java/com/openclassrooms/tourguide/service/TourGuideService.java:81-96 | every registered user's rewards become `Attribute` of their own history and old rewards; only the users' reward lists may change |
| `TourGuide.TourGuideService.GetTripDeals` | TourGuide/src/main/java/com/openclassrooms/tourguide/service/TourGuideService.java:105-112 | the pricer is called with the API key, the user's id and preferences and the cumulative reward points; its offers are stored on the user and returned |
| `TourGuide.TourGuideService.GetNearByAttractions` | TourGuide/src/main/java/com/openclassrooms/tourguide/service/TourGuideService.java:121-124 | min(5, catalog size) catalog attractions in non-decreasing distance from the visit, none farther than any left out |
| `TourGuide.TourGuideService.GenerateUserLocationHistory` | TourGuide/src/main/java/com/openclassrooms/tourguide/service/TourGuideService.java:158-163 | appends exactly three visits carrying the user's id, in generation order |
| `TourGuide.TourGuideService.NewInternalUser` | TourGuide/src/main/java/com/openclassrooms/tourguide/service/TourGuideService.java:147-151 | a fresh user `internalUser<i>` with phone "000", e-mail `<name>@tourGuide.com`, three visits and no rewards |
| `TourGuide.TourGuideService.InitializeInternalUsers` | TourGuide/src/main/java/com/openclassrooms/tourguide/service/TourGuideService.java:145-156 | the registry gains exactly the names `internalUser0` to `internalUser(N-1)`, each bound to a fresh user with three visits; other entries are kept |

## Left out

- Great-circle distance (`getDistance`, RewardsService.java:111-122): it is floating-point trigonometry. It is a parameter of the model, so symmetry and zero self-distance are not proved.
- Reward-point caching (`@Cacheable`, CacheConfig.java): the cache does not change values. `getRewardPoints` is therefore the oracle function itself. TTL, capacity and single-flight behaviour belong to the caching library.
- The worker pool of `calculateAllRewardsInParallel`: concurrency is not modelled. The method is a sequential pass over the user snapshot, and `parallelism` has no effect.
- Failure of a user's task: the model's oracle always answers. An exception from `join` is therefore not modelled.
- `Tracker` (scheduling, thread pools, `stopTracking`) and the shutdown hook are left out. In test mode the constructor never starts the tracker.
- The random coordinate, timestamp and UUID generators: their draws are function parameters. Only the counts and shapes of the generated data are stated.
- The REST controller, Spring wiring, `Locale` setup, logging and the application entry point are left out. They hold no model logic.
- The global `InternalTestHelper` user count: it is a constructor argument.
- Concurrent mutation of a user through the live lists that the getters return: Dafny sequences are values, so the snapshot copies in `calculateRewards` are implicit.
- `Proximity.ClosestAttractions`: `Double.compare` ordering, including NaN and signed zeros, is not modelled. Distances are mathematical reals.
