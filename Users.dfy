/** The user record: identity, contact details, the append-only visit
    history, the reward list (at most one reward per attraction name),
    preferences and the last trip offers. */
module Users {
  import opened Domain

  /** The attraction names a reward list already covers. */
  function RewardedNames(rewards: seq<UserReward>): set<string>
  {
    set r | r in rewards :: r.attraction.attractionName
  }

  /** No two rewards of the list are for attractions of the same name. */
  ghost predicate DistinctNames(rewards: seq<UserReward>)
  {
    forall i, j :: 0 <= i < j < |rewards| ==>
      rewards[i].attraction.attractionName != rewards[j].attraction.attractionName
  }

  /** The scan of `addUserReward`: does some reward of the list carry an
      attraction with this name? */
  function HasRewardFor(rewards: seq<UserReward>, name: string): (b: bool)
    ensures b <==> name in RewardedNames(rewards)
    ensures b <==> exists i :: 0 <= i < |rewards| && rewards[i].attraction.attractionName == name
  {
    if rewards == [] then false
    else
      var last := rewards[|rewards| - 1];
      assert rewards == rewards[..|rewards| - 1] + [last];
      last.attraction.attractionName == name || HasRewardFor(rewards[..|rewards| - 1], name)
  }

  /** The reward list after `addUserReward(reward)`. */
  function WithReward(rewards: seq<UserReward>, reward: UserReward): (r: seq<UserReward>)
    ensures HasRewardFor(rewards, reward.attraction.attractionName) ==> r == rewards
    ensures !HasRewardFor(rewards, reward.attraction.attractionName) ==> r == rewards + [reward]
    ensures RewardedNames(r) == RewardedNames(rewards) + {reward.attraction.attractionName}
  {
    if HasRewardFor(rewards, reward.attraction.attractionName) then rewards else rewards + [reward]
  }

  /** `addUserReward` keeps the one-reward-per-attraction-name invariant. */
  lemma WithRewardKeepsDistinct(rewards: seq<UserReward>, reward: UserReward)
    requires DistinctNames(rewards)
    ensures DistinctNames(WithReward(rewards, reward))
  {
    var r := WithReward(rewards, reward);
    if r != rewards {
      forall i, j | 0 <= i < j < |r|
        ensures r[i].attraction.attractionName != r[j].attraction.attractionName
      {
        if j == |rewards| {
          assert !HasRewardFor(rewards, reward.attraction.attractionName);
          assert r[i] == rewards[i];
        }
      }
    }
  }

  /** A second `addUserReward` of a reward for the same attraction name
      changes nothing. */
  lemma WithRewardIdempotent(rewards: seq<UserReward>, reward: UserReward, again: UserReward)
    requires again.attraction.attractionName == reward.attraction.attractionName
    ensures WithReward(WithReward(rewards, reward), again) == WithReward(rewards, reward)
  {
  }

  class User {
    const userId: Uuid
    const userName: string
    var phoneNumber: string
    var emailAddress: string
    var latestLocationTimestamp: Option<Timestamp>
    var visitedLocations: seq<VisitedLocation>
    var userRewards: seq<UserReward>
    var userPreferences: UserPreferences
    var tripDeals: seq<Provider>

    /** The source's object invariant: one reward per attraction name. */
    ghost predicate Valid()
      reads this
    {
      DistinctNames(userRewards)
    }

    /** `new User(userId, userName, phoneNumber, emailAddress)`; the
        default-constructed `UserPreferences` is passed in. */
    constructor (userId: Uuid, userName: string, phoneNumber: string, emailAddress: string,
                 defaultPreferences: UserPreferences)
      ensures Valid()
      ensures this.userId == userId && this.userName == userName
      ensures this.phoneNumber == phoneNumber && this.emailAddress == emailAddress
      ensures latestLocationTimestamp == None
      ensures visitedLocations == [] && userRewards == [] && tripDeals == []
      ensures userPreferences == defaultPreferences
    {
      this.userId := userId;
      this.userName := userName;
      this.phoneNumber := phoneNumber;
      this.emailAddress := emailAddress;
      latestLocationTimestamp := None;
      visitedLocations := [];
      userRewards := [];
      userPreferences := defaultPreferences;
      tripDeals := [];
    }

    method SetPhoneNumber(phoneNumber: string)
      modifies this`phoneNumber
      ensures this.phoneNumber == phoneNumber
    {
      this.phoneNumber := phoneNumber;
    }

    method SetEmailAddress(emailAddress: string)
      modifies this`emailAddress
      ensures this.emailAddress == emailAddress
    {
      this.emailAddress := emailAddress;
    }

    method SetLatestLocationTimestamp(timestamp: Option<Timestamp>)
      modifies this`latestLocationTimestamp
      ensures latestLocationTimestamp == timestamp
    {
      latestLocationTimestamp := timestamp;
    }

    method SetUserPreferences(preferences: UserPreferences)
      modifies this`userPreferences
      ensures userPreferences == preferences
    {
      userPreferences := preferences;
    }

    method SetTripDeals(deals: seq<Provider>)
      modifies this`tripDeals
      ensures tripDeals == deals
    {
      tripDeals := deals;
    }

    /** Appends one visit; earlier visits stay where they were. */
    method AddToVisitedLocations(visit: VisitedLocation)
      modifies this`visitedLocations
      ensures visitedLocations == old(visitedLocations) + [visit]
      ensures |visitedLocations| == |old(visitedLocations)| + 1
      ensures visitedLocations[|visitedLocations| - 1] == visit
    {
      visitedLocations := visitedLocations + [visit];
    }

    /** Empties the history; rewards and the other fields are untouched. */
    method ClearVisitedLocations()
      modifies this`visitedLocations
      ensures visitedLocations == []
    {
      visitedLocations := [];
    }

    /** The most recent visit; `List.get(size() - 1)` throws on an empty list. */
    method GetLastVisitedLocation() returns (r: Result<VisitedLocation>)
      ensures visitedLocations == [] <==> r == Err(IndexOutOfBounds)
      ensures visitedLocations != [] ==> r == Ok(visitedLocations[|visitedLocations| - 1])
    {
      if |visitedLocations| == 0 {
        r := Err(IndexOutOfBounds);
      } else {
        r := Ok(visitedLocations[|visitedLocations| - 1]);
      }
    }

    /** Appends the reward unless one for the same attraction name exists. */
    method AddUserReward(reward: UserReward)
      modifies this`userRewards
      ensures userRewards == WithReward(old(userRewards), reward)
      ensures old(Valid()) ==> Valid()
    {
      if DistinctNames(userRewards) {
        WithRewardKeepsDistinct(userRewards, reward);
      }
      if !HasRewardFor(userRewards, reward.attraction.attractionName) {
        userRewards := userRewards + [reward];
      }
    }
  }
}
