/** The tour-guide service: the name-to-user registry, location refresh
    (reuse the last visit, or ask the location provider and recompute
    rewards), nearby attractions, trip offers priced on the user's
    cumulative reward points, and the generated internal test users. */
module TourGuide {
  import opened Domain
  import opened Users
  import opened Proximity
  import opened Rewards

  /** tripPricer's `getPrice(apiKey, userId, adults, children, nightsStay, rewardPoints)`. */
  type TripPricer = (string, Uuid, int, int, int, Int32) -> seq<Provider>

  const TRIP_PRICER_API_KEY: string := "test-server-api-key"

  /** Number of attractions `getNearByAttractions` returns. */
  const NEARBY_ATTRACTION_COUNT: int := 5

  /** Number of visits generated for each internal user. */
  const GENERATED_VISIT_COUNT: nat := 3

  // ---------------------------------------------------------------------
  // Reward points

  /** Exact sum of the rewards' points. */
  function SumPoints(rewards: seq<UserReward>): int
  {
    if rewards == [] then 0
    else SumPoints(rewards[..|rewards| - 1]) + rewards[|rewards| - 1].rewardPoints
  }

  lemma {:induction false} SumPointsConcat(a: seq<UserReward>, b: seq<UserReward>)
    ensures SumPoints(a + b) == SumPoints(a) + SumPoints(b)
  {
    if b == [] {
      assert a + b == a;
    } else {
      assert (a + b)[..|a + b| - 1] == a + b[..|b| - 1];
      SumPointsConcat(a, b[..|b| - 1]);
    }
  }

  /** An attribution raises the exact point total by exactly the points of
      the rewards it appends. */
  lemma AttributionAddsPoints(s: Scoring, userId: Uuid, visits: seq<VisitedLocation>,
                              rewards: seq<UserReward>, catalog: seq<Attraction>)
    ensures var after := Attribute(s, userId, visits, rewards, catalog);
            rewards <= after && SumPoints(after) == SumPoints(rewards) + SumPoints(after[|rewards|..])
  {
    var after := Attribute(s, userId, visits, rewards, catalog);
    assert after == rewards + after[|rewards|..];
    SumPointsConcat(rewards, after[|rewards|..]);
  }

  /** The `int` passed to the trip pricer: `mapToInt(getRewardPoints).sum()`,
      which wraps around on overflow. */
  function CumulativeRewardPoints(rewards: seq<UserReward>): (r: Int32)
    ensures INT32_MIN <= SumPoints(rewards) <= INT32_MAX ==> r == SumPoints(rewards)
    ensures (r - SumPoints(rewards)) % 0x1_0000_0000 == 0
  {
    Wrap32(SumPoints(rewards))
  }

  // ---------------------------------------------------------------------
  // Internal user names

  /** `Integer.toString` of a non-negative number. */
  function DecimalString(n: nat): (r: string)
    ensures |r| >= 1
    ensures n >= 10 ==> |r| >= 2
  {
    if n < 10 then [('0' as int + n) as char]
    else DecimalString(n / 10) + [('0' as int + n % 10) as char]
  }

  lemma {:induction false} DecimalStringInjective(a: nat, b: nat)
    requires DecimalString(a) == DecimalString(b)
    ensures a == b
  {
    var sa, sb := DecimalString(a), DecimalString(b);
    if a >= 10 && b >= 10 {
      assert sa[..|sa| - 1] == DecimalString(a / 10);
      assert sb[..|sb| - 1] == DecimalString(b / 10);
      DecimalStringInjective(a / 10, b / 10);
      assert sa[|sa| - 1] == sb[|sb| - 1];
    }
  }

  function InternalUserName(i: nat): string
  {
    "internalUser" + DecimalString(i)
  }

  function InternalEmail(userName: string): string
  {
    userName + "@tourGuide.com"
  }

  lemma InternalUserNameInjective(i: nat, j: nat)
    requires InternalUserName(i) == InternalUserName(j)
    ensures i == j
  {
    var p := "internalUser";
    assert DecimalString(i) == InternalUserName(i)[|p|..];
    assert DecimalString(j) == InternalUserName(j)[|p|..];
    DecimalStringInjective(i, j);
  }

  /** `internalUser0` to `internalUser(n-1)`. */
  function InternalUserNames(n: nat): set<string>
  {
    set i | 0 <= i < n :: InternalUserName(i)
  }

  /** One more generated user adds one new name. */
  lemma InternalUserNamesStep(n: nat)
    ensures InternalUserNames(n + 1) == InternalUserNames(n) + {InternalUserName(n)}
    ensures InternalUserName(n) !in InternalUserNames(n)
  {
    assert InternalUserNames(n + 1) == InternalUserNames(n) + {InternalUserName(n)};
    if InternalUserName(n) in InternalUserNames(n) {
      var i :| 0 <= i < n && InternalUserName(i) == InternalUserName(n);
      InternalUserNameInjective(i, n);
    }
  }

  lemma {:induction false} InternalUserNamesCount(n: nat)
    ensures |InternalUserNames(n)| == n
  {
    if n > 0 {
      InternalUserNamesCount(n - 1);
      InternalUserNamesStep(n - 1);
    }
  }

  // ---------------------------------------------------------------------
  // The registry

  /** Every user is registered under its own name. */
  predicate NamesMatch(users: map<string, User>)
  {
    forall n :: n in users ==> users[n].userName == n
  }

  /** The registry after `addUser(user)`: insert only when the name is absent. */
  function Registered(users: map<string, User>, user: User): (r: map<string, User>)
    ensures r.Keys == users.Keys + {user.userName}
    ensures forall n :: n in users ==> r[n] == users[n]
    ensures user.userName !in users ==> r[user.userName] == user
    ensures NamesMatch(users) ==> NamesMatch(r)
  {
    if user.userName in users then users else users[user.userName := user]
  }

  /** Registering a second user under a name already taken changes nothing. */
  lemma RegisteredIdempotent(users: map<string, User>, user: User, other: User)
    requires other.userName == user.userName
    ensures Registered(Registered(users, user), other) == Registered(users, user)
  {
  }

  /** The fields a generated internal user starts with. */
  ghost predicate IsInternalUser(u: User, i: nat, id: Uuid)
    reads u
  {
    && u.userName == InternalUserName(i)
    && u.userId == id
    && u.phoneNumber == "000"
    && u.emailAddress == InternalEmail(InternalUserName(i))
    && |u.visitedLocations| == GENERATED_VISIT_COUNT
    && (forall v :: v in u.visitedLocations ==> v.userId == id)
    && u.userRewards == []
  }

  class TourGuideService {
    const rewardsService: RewardsService
    const tripPricer: TripPricer
    var internalUserMap: map<string, User>

    ghost predicate Valid()
      reads this
    {
      NamesMatch(internalUserMap)
    }

    /** The service in test mode: the registry is filled with
        `internalUserNumber` generated users and the tracker is not
        started. `ids`, `randomLocation` and `randomTime` stand for the
        random draws, indexed by user and visit. */
    constructor (rewardsService: RewardsService, tripPricer: TripPricer, internalUserNumber: nat,
                 ids: nat -> Uuid, randomLocation: (nat, nat) -> Location, randomTime: (nat, nat) -> Timestamp,
                 defaultPreferences: UserPreferences)
      ensures this.rewardsService == rewardsService && this.tripPricer == tripPricer
      ensures Valid()
      ensures internalUserMap.Keys == InternalUserNames(internalUserNumber)
      ensures |internalUserMap| == internalUserNumber
      ensures forall i :: 0 <= i < internalUserNumber ==>
                fresh(internalUserMap[InternalUserName(i)])
                && IsInternalUser(internalUserMap[InternalUserName(i)], i, ids(i))
    {
      this.rewardsService := rewardsService;
      this.tripPricer := tripPricer;
      internalUserMap := map[];
      new;
      InitializeInternalUsers(internalUserNumber, ids, randomLocation, randomTime, defaultPreferences);
      InternalUserNamesCount(internalUserNumber);
      assert |internalUserMap| == |internalUserMap.Keys|;
    }

    /** `getUserRewards(user)`: the user's live reward list. */
    function GetUserRewards(user: User): (r: seq<UserReward>)
      reads user
      ensures r == user.userRewards
      ensures user.Valid() ==> DistinctNames(r)
    {
      user.userRewards
    }

    /** `getUser(userName)`: the user registered under that name, or null. */
    function GetUser(userName: string): (r: Option<User>)
      reads this
      ensures r.Some? <==> userName in internalUserMap
      ensures r.Some? ==> r.value == internalUserMap[userName]
      ensures Valid() && r.Some? ==> r.value.userName == userName
    {
      if userName in internalUserMap then Some(internalUserMap[userName]) else None
    }

    /** `getAllUsers()`: a fresh list holding every registered user once. */
    method GetAllUsers() returns (users: seq<User>)
      requires Valid()
      ensures |users| == |internalUserMap|
      ensures forall u :: u in users <==> u in internalUserMap.Values
      ensures forall i :: 0 <= i < |users| ==> users[i] in internalUserMap.Values
      ensures forall i, j :: 0 <= i < j < |users| ==> users[i] != users[j]
    {
      users := [];
      var names := internalUserMap.Keys;
      while names != {}
        invariant names <= internalUserMap.Keys
        invariant |users| + |names| == |internalUserMap.Keys|
        invariant forall i :: 0 <= i < |users| ==>
                    users[i].userName in internalUserMap && users[i].userName !in names
                    && internalUserMap[users[i].userName] == users[i]
        invariant forall i, j :: 0 <= i < j < |users| ==> users[i].userName != users[j].userName
        invariant forall n :: n in internalUserMap && n !in names ==> internalUserMap[n] in users
        decreases |names|
      {
        var n :| n in names;
        users := users + [internalUserMap[n]];
        names := names - {n};
      }
      assert |internalUserMap| == |internalUserMap.Keys|;
      forall u | u in internalUserMap.Values ensures u in users {
        var n :| n in internalUserMap && internalUserMap[n] == u;
      }
    }

    /** `addUser(user)`: a name already registered is never re-bound. */
    method AddUser(user: User)
      modifies this`internalUserMap
      ensures internalUserMap == Registered(old(internalUserMap), user)
      ensures old(Valid()) ==> Valid()
    {
      if user.userName !in internalUserMap {
        internalUserMap := internalUserMap[user.userName := user];
      }
    }

    /** `trackUserLocation(user)`: append the provider's answer to the
        history, then recompute the user's rewards; returns the new last
        visit. */
    method TrackUserLocation(user: User, provided: VisitedLocation) returns (visit: VisitedLocation)
      modifies user`visitedLocations, user`userRewards
      ensures visit == provided
      ensures user.visitedLocations == old(user.visitedLocations) + [provided]
      ensures visit == user.visitedLocations[|user.visitedLocations| - 1]
      ensures user.userRewards
              == Attribute(rewardsService.CurrentScoring(), user.userId, user.visitedLocations,
                           old(user.userRewards), rewardsService.attractions)
      ensures old(user.Valid()) ==> user.Valid()
    {
      visit := provided;
      user.AddToVisitedLocations(visit);
      rewardsService.CalculateRewards(user);
    }

    /** `getUserLocation(user)`: the last visit when there is one (nothing
        changes); otherwise one tracking round with the provider's answer. */
    method GetUserLocation(user: User, provided: VisitedLocation) returns (visit: VisitedLocation)
      modifies user`visitedLocations, user`userRewards
      ensures old(user.visitedLocations) != [] ==>
                && visit == old(user.visitedLocations)[|old(user.visitedLocations)| - 1]
                && user.visitedLocations == old(user.visitedLocations)
                && user.userRewards == old(user.userRewards)
      ensures old(user.visitedLocations) == [] ==>
                && visit == provided
                && user.visitedLocations == [provided]
                && user.userRewards
                   == Attribute(rewardsService.CurrentScoring(), user.userId, [provided],
                                old(user.userRewards), rewardsService.attractions)
      ensures old(user.Valid()) ==> user.Valid()
    {
      if |user.visitedLocations| == 0 {
        visit := TrackUserLocation(user, provided);
      } else {
        var last := user.GetLastVisitedLocation();
        visit := last.value;
      }
    }

    /** `calculateAllRewardsInParallel(parallelism)`, with the worker pool
        replaced by a sequential pass over the user snapshot. */
    method CalculateAllRewardsInParallel(parallelism: int)
      requires Valid()
      modifies internalUserMap.Values`userRewards
      ensures forall u :: u in internalUserMap.Values ==>
                && u.visitedLocations == old(u.visitedLocations)
                && u.userRewards
                   == Attribute(rewardsService.CurrentScoring(), u.userId, u.visitedLocations,
                                old(u.userRewards), rewardsService.attractions)
    {
      var users := GetAllUsers();
      ghost var s := rewardsService.CurrentScoring();
      assert forall k :: 0 <= k < |users| ==> users[k] in old(internalUserMap.Values);
      assert forall k :: 0 <= k < |users| ==> old(allocated(users[k]));
      for i := 0 to |users|
        invariant forall k :: 0 <= k < i ==>
                    users[k].userRewards
                    == Attribute(s, users[k].userId, users[k].visitedLocations,
                                 old(users[k].userRewards), rewardsService.attractions)
        invariant forall k :: i <= k < |users| ==> users[k].userRewards == old(users[k].userRewards)
        invariant forall u :: u in users ==> u.visitedLocations == old(u.visitedLocations)
        invariant forall k :: 0 <= k < |users| ==> old(allocated(users[k]))
      {
        rewardsService.CalculateRewards(users[i]);
      }
      forall u | u in internalUserMap.Values
        ensures u.userRewards
                == Attribute(s, u.userId, u.visitedLocations, old(u.userRewards), rewardsService.attractions)
      {
        var k :| 0 <= k < |users| && users[k] == u;
      }
    }

    /** `getTripDeals(user)`: price trips on the user's cumulative reward
        points and store the offers on the user. */
    method GetTripDeals(user: User) returns (providers: seq<Provider>)
      modifies user`tripDeals
      ensures providers
              == tripPricer(TRIP_PRICER_API_KEY, user.userId,
                            user.userPreferences.numberOfAdults, user.userPreferences.numberOfChildren,
                            user.userPreferences.tripDuration, CumulativeRewardPoints(user.userRewards))
      ensures user.tripDeals == providers
    {
      var cumulativeRewardPoints := CumulativeRewardPoints(user.userRewards);
      providers := tripPricer(TRIP_PRICER_API_KEY, user.userId,
                              user.userPreferences.numberOfAdults, user.userPreferences.numberOfChildren,
                              user.userPreferences.tripDuration, cumulativeRewardPoints);
      user.SetTripDeals(providers);
    }

    /** `getNearByAttractions(visit)`: the five attractions closest to the
        visit, whatever the proximity buffer. */
    function GetNearByAttractions(visit: VisitedLocation): (r: seq<Attraction>)
      ensures |r| == Min(NEARBY_ATTRACTION_COUNT, |rewardsService.attractions|)
      ensures Sorted(rewardsService.dist, visit.location, r)
      ensures multiset(r) <= multiset(rewardsService.attractions)
      ensures forall x, y :: x in r && y in multiset(rewardsService.attractions) - multiset(r)
                ==> Key(rewardsService.dist, visit.location, x) <= Key(rewardsService.dist, visit.location, y)
    {
      rewardsService.GetClosestAttractions(visit.location, NEARBY_ATTRACTION_COUNT).value
    }

    /** `generateUserLocationHistory(user)`: three generated visits. */
    method GenerateUserLocationHistory(user: User, i: nat,
                                       randomLocation: (nat, nat) -> Location, randomTime: (nat, nat) -> Timestamp)
      modifies user`visitedLocations
      ensures user.visitedLocations
              == old(user.visitedLocations)
                 + seq(GENERATED_VISIT_COUNT, v requires 0 <= v < GENERATED_VISIT_COUNT =>
                         VisitedLocation(user.userId, randomLocation(i, v), randomTime(i, v)))
    {
      ghost var before := user.visitedLocations;
      for v := 0 to GENERATED_VISIT_COUNT
        invariant user.visitedLocations
                  == before + seq(v, w requires 0 <= w < v =>
                                    VisitedLocation(user.userId, randomLocation(i, w), randomTime(i, w)))
      {
        user.AddToVisitedLocations(VisitedLocation(user.userId, randomLocation(i, v), randomTime(i, v)));
      }
    }

    /** One iteration of `initializeInternalUsers`: a new user with its
        generated history. */
    method NewInternalUser(i: nat, ids: nat -> Uuid,
                           randomLocation: (nat, nat) -> Location, randomTime: (nat, nat) -> Timestamp,
                           defaultPreferences: UserPreferences)
      returns (user: User)
      ensures fresh(user) && IsInternalUser(user, i, ids(i))
    {
      var userName := InternalUserName(i);
      user := new User(ids(i), userName, "000", InternalEmail(userName), defaultPreferences);
      GenerateUserLocationHistory(user, i, randomLocation, randomTime);
    }

    /** `initializeInternalUsers()`: users `internalUser0` to
        `internalUser(n-1)`, each with three visits, put into the registry. */
    method InitializeInternalUsers(internalUserNumber: nat, ids: nat -> Uuid,
                                   randomLocation: (nat, nat) -> Location, randomTime: (nat, nat) -> Timestamp,
                                   defaultPreferences: UserPreferences)
      modifies this`internalUserMap
      ensures internalUserMap.Keys == old(internalUserMap.Keys) + InternalUserNames(internalUserNumber)
      ensures forall n :: n in old(internalUserMap) && n !in InternalUserNames(internalUserNumber) ==>
                internalUserMap[n] == old(internalUserMap[n])
      ensures forall i :: 0 <= i < internalUserNumber ==>
                fresh(internalUserMap[InternalUserName(i)])
                && IsInternalUser(internalUserMap[InternalUserName(i)], i, ids(i))
      ensures old(Valid()) ==> Valid()
    {
      for i := 0 to internalUserNumber
        invariant internalUserMap.Keys == old(internalUserMap.Keys) + InternalUserNames(i)
        invariant forall n :: n in old(internalUserMap) && n !in InternalUserNames(i) ==>
                    internalUserMap[n] == old(internalUserMap[n])
        invariant forall k :: 0 <= k < i ==>
                    fresh(internalUserMap[InternalUserName(k)])
                    && IsInternalUser(internalUserMap[InternalUserName(k)], k, ids(k))
        invariant old(Valid()) ==> Valid()
      {
        var userName := InternalUserName(i);
        var user := NewInternalUser(i, ids, randomLocation, randomTime, defaultPreferences);
        InternalUserNamesStep(i);
        internalUserMap := internalUserMap[userName := user];
      }
    }
  }
}
