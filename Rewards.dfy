/** Reward attribution (`RewardsService`). For one user, the catalog is
    walked in order; an attraction whose name is already rewarded is
    skipped, otherwise the first visit of the history that lies within the
    proximity buffer earns one reward, scored by the reward oracle. */
module Rewards {
  import opened Domain
  import opened Users
  import opened Proximity

  /** What a call of `calculateRewards` reads besides the user and the
      catalog: the distance, the current proximity buffer and the oracle. */
  datatype Scoring = Scoring(dist: Distance, proximityBuffer: int, rewardPoints: RewardOracle)
  {
    predicate Near(visit: VisitedLocation, attraction: Attraction)
    {
      IsNear(dist, proximityBuffer, visit, attraction)
    }
  }

  /** Index of the first visit of the history near the attraction. */
  function FirstNearIndex(s: Scoring, visits: seq<VisitedLocation>, attraction: Attraction): (r: Option<nat>)
    ensures r.None? <==> forall k :: 0 <= k < |visits| ==> !s.Near(visits[k], attraction)
    ensures r.Some? ==> r.value < |visits| && s.Near(visits[r.value], attraction)
    ensures r.Some? ==> forall k :: 0 <= k < r.value ==> !s.Near(visits[k], attraction)
  {
    if visits == [] then None
    else if s.Near(visits[0], attraction) then Some(0)
    else
      match FirstNearIndex(s, visits[1..], attraction)
      case None => None
      case Some(k) => Some(k + 1)
  }

  /** Some visit of the history is near the attraction. */
  predicate Visited(s: Scoring, visits: seq<VisitedLocation>, attraction: Attraction)
  {
    exists k :: 0 <= k < |visits| && s.Near(visits[k], attraction)
  }

  /** One iteration of the outer loop, for one attraction: skip it (its
      name is rewarded, or no visit is near it), or append one reward
      carrying its first near visit and the oracle's points. */
  function Step(s: Scoring, userId: Uuid, visits: seq<VisitedLocation>,
                rewards: seq<UserReward>, attraction: Attraction): (r: seq<UserReward>)
    ensures || (r == rewards
                && (attraction.attractionName in RewardedNames(rewards) || !Visited(s, visits, attraction)))
            || (attraction.attractionName !in RewardedNames(rewards)
                && FirstNearIndex(s, visits, attraction).Some?
                && r == rewards + [UserReward(visits[FirstNearIndex(s, visits, attraction).value], attraction,
                                                 s.rewardPoints(attraction.attractionId, userId))])
  {
    if attraction.attractionName in RewardedNames(rewards) then rewards
    else
      match FirstNearIndex(s, visits, attraction)
      case None => rewards
      case Some(k) =>
        WithReward(rewards, UserReward(visits[k], attraction, s.rewardPoints(attraction.attractionId, userId)))
  }

  /** The user's reward list after the outer loop has run over `catalog`,
      a left fold of `Step` in catalog order. Rewards present before stay,
      in place, as a prefix, and each catalog entry appends at most one. */
  function Attribute(s: Scoring, userId: Uuid, visits: seq<VisitedLocation>,
                     rewards: seq<UserReward>, catalog: seq<Attraction>): (r: seq<UserReward>)
    ensures rewards <= r
    ensures |r| <= |rewards| + |catalog|
  {
    if catalog == [] then rewards
    else Step(s, userId, visits, Attribute(s, userId, visits, rewards, catalog[..|catalog| - 1]), catalog[|catalog| - 1])
  }

  /** Names rewarded after the call: those rewarded before, plus the name of
      every catalog attraction some visit is near. */
  lemma {:induction false} AttributeNames(s: Scoring, userId: Uuid, visits: seq<VisitedLocation>,
                                          rewards: seq<UserReward>, catalog: seq<Attraction>)
    ensures RewardedNames(Attribute(s, userId, visits, rewards, catalog))
            == RewardedNames(rewards) + set a | a in catalog && Visited(s, visits, a) :: a.attractionName
  {
    if catalog != [] {
      var init, last := catalog[..|catalog| - 1], catalog[|catalog| - 1];
      assert catalog == init + [last];
      AttributeNames(s, userId, visits, rewards, init);
      var before := Attribute(s, userId, visits, rewards, init);
      var names := set a | a in catalog && Visited(s, visits, a) :: a.attractionName;
      var initNames := set a | a in init && Visited(s, visits, a) :: a.attractionName;
      assert names == initNames + (if Visited(s, visits, last) then {last.attractionName} else {});
    }
  }

  /** No two rewards share an attraction name after the call, provided none
      did before. */
  lemma {:induction false} AttributeKeepsDistinct(s: Scoring, userId: Uuid, visits: seq<VisitedLocation>,
                                                  rewards: seq<UserReward>, catalog: seq<Attraction>)
    requires DistinctNames(rewards)
    ensures DistinctNames(Attribute(s, userId, visits, rewards, catalog))
  {
    if catalog != [] {
      var init := catalog[..|catalog| - 1];
      AttributeKeepsDistinct(s, userId, visits, rewards, init);
      var before := Attribute(s, userId, visits, rewards, init);
      var last := catalog[|catalog| - 1];
      if last.attractionName !in RewardedNames(before) {
        match FirstNearIndex(s, visits, last)
        case None =>
        case Some(k) =>
          WithRewardKeepsDistinct(before, UserReward(visits[k], last, s.rewardPoints(last.attractionId, userId)));
      }
    }
  }

  /** Every reward added by the call is for a catalog attraction whose name
      was not rewarded before; it carries the EARLIEST visit of the history
      near that attraction (not the closest) and the oracle's points for
      (attraction id, user id). */
  lemma {:induction false} AttributeNewRewards(s: Scoring, userId: Uuid, visits: seq<VisitedLocation>,
                                               rewards: seq<UserReward>, catalog: seq<Attraction>, i: nat)
    requires |rewards| <= i < |Attribute(s, userId, visits, rewards, catalog)|
    ensures var r := Attribute(s, userId, visits, rewards, catalog)[i];
      && r.attraction in catalog
      && r.attraction.attractionName !in RewardedNames(rewards)
      && FirstNearIndex(s, visits, r.attraction).Some?
      && r.visitedLocation == visits[FirstNearIndex(s, visits, r.attraction).value]
      && r.rewardPoints == s.rewardPoints(r.attraction.attractionId, userId)
  {
    var init, last := catalog[..|catalog| - 1], catalog[|catalog| - 1];
    var before := Attribute(s, userId, visits, rewards, init);
    if i < |before| {
      AttributeNewRewards(s, userId, visits, rewards, init, i);
      assert Attribute(s, userId, visits, rewards, catalog)[i] == before[i];
    } else {
      AttributeNames(s, userId, visits, rewards, init);
    }
  }

  /** The attractions of a catalog have pairwise distinct names. */
  predicate DistinctAttractionNames(catalog: seq<Attraction>)
  {
    forall p, q :: 0 <= p < q < |catalog| ==> catalog[p].attractionName != catalog[q].attractionName
  }

  /** For a catalog without repeated names: an attraction gets a new reward
      exactly when its name was not rewarded before and some visit of the
      history is near it. */
  lemma AttributeExactlyWhen(s: Scoring, userId: Uuid, visits: seq<VisitedLocation>,
                             rewards: seq<UserReward>, catalog: seq<Attraction>, a: Attraction)
    requires a in catalog && DistinctAttractionNames(catalog)
    ensures var after := Attribute(s, userId, visits, rewards, catalog);
            (exists i :: |rewards| <= i < |after| && after[i].attraction == a)
            <==> (a.attractionName !in RewardedNames(rewards) && Visited(s, visits, a))
  {
    var after := Attribute(s, userId, visits, rewards, catalog);
    forall i | |rewards| <= i < |after| && after[i].attraction == a
      ensures a.attractionName !in RewardedNames(rewards) && Visited(s, visits, a)
    {
      AttributeNewRewards(s, userId, visits, rewards, catalog, i);
    }
    if a.attractionName !in RewardedNames(rewards) && Visited(s, visits, a) {
      AttributeNames(s, userId, visits, rewards, catalog);
      assert a.attractionName in RewardedNames(after);
      var r :| r in after && r.attraction.attractionName == a.attractionName;
      var i :| 0 <= i < |after| && after[i] == r;
      AttributeNewRewards(s, userId, visits, rewards, catalog, i);
      var p :| 0 <= p < |catalog| && catalog[p] == r.attraction;
      var q :| 0 <= q < |catalog| && catalog[q] == a;
      assert p == q;
    }
  }

  /** New rewards follow catalog order: the attractions of two new rewards
      appear in the catalog in the same order as the rewards. */
  lemma {:induction false} AttributeFollowsCatalog(s: Scoring, userId: Uuid, visits: seq<VisitedLocation>,
                                                   rewards: seq<UserReward>, catalog: seq<Attraction>, i: nat, j: nat)
    requires |rewards| <= i < j < |Attribute(s, userId, visits, rewards, catalog)|
    ensures exists p, q :: 0 <= p < q < |catalog|
              && catalog[p] == Attribute(s, userId, visits, rewards, catalog)[i].attraction
              && catalog[q] == Attribute(s, userId, visits, rewards, catalog)[j].attraction
  {
    var init, last := catalog[..|catalog| - 1], catalog[|catalog| - 1];
    var before := Attribute(s, userId, visits, rewards, init);
    var after := Attribute(s, userId, visits, rewards, catalog);
    if j < |before| {
      AttributeFollowsCatalog(s, userId, visits, rewards, init, i, j);
      var p, q :| 0 <= p < q < |init| && init[p] == before[i].attraction && init[q] == before[j].attraction;
      assert catalog[p] == after[i].attraction && catalog[q] == after[j].attraction;
    } else {
      AttributeNewRewards(s, userId, visits, rewards, init, i);
      var p :| 0 <= p < |init| && init[p] == before[i].attraction;
      assert catalog[p] == after[i].attraction && catalog[|catalog| - 1] == after[j].attraction;
    }
  }

  /** When every attraction with a near visit is already rewarded, the call
      adds nothing. */
  lemma {:induction false} AttributeSaturated(s: Scoring, userId: Uuid, visits: seq<VisitedLocation>,
                                              rewards: seq<UserReward>, catalog: seq<Attraction>)
    requires forall a :: a in catalog && Visited(s, visits, a) ==> a.attractionName in RewardedNames(rewards)
    ensures Attribute(s, userId, visits, rewards, catalog) == rewards
  {
    if catalog != [] {
      var init, last := catalog[..|catalog| - 1], catalog[|catalog| - 1];
      assert forall a :: a in init ==> a in catalog;
      AttributeSaturated(s, userId, visits, rewards, init);
    }
  }

  /** Idempotence: a second call with the same history, catalog and scoring
      adds no rewards. */
  lemma AttributeIdempotent(s: Scoring, userId: Uuid, visits: seq<VisitedLocation>,
                            rewards: seq<UserReward>, catalog: seq<Attraction>)
    ensures var once := Attribute(s, userId, visits, rewards, catalog);
            Attribute(s, userId, visits, once, catalog) == once
  {
    var once := Attribute(s, userId, visits, rewards, catalog);
    AttributeNames(s, userId, visits, rewards, catalog);
    forall a | a in catalog && Visited(s, visits, a) ensures a.attractionName in RewardedNames(once) {
    }
    AttributeSaturated(s, userId, visits, once, catalog);
  }

  /** A catalog attraction some visit is near ends up rewarded, by name; in
      particular a history holding a visit at the attraction's own
      coordinates earns a reward for it when distance to oneself is 0. */
  lemma AttributeRewardsVisited(s: Scoring, userId: Uuid, visits: seq<VisitedLocation>,
                                rewards: seq<UserReward>, catalog: seq<Attraction>, a: Attraction, k: nat)
    requires a in catalog && k < |visits|
    requires visits[k].location == a.location
    requires s.dist(a.location, a.location) == 0.0 && s.proximityBuffer >= 0
    ensures a.attractionName in RewardedNames(Attribute(s, userId, visits, rewards, catalog))
    ensures |Attribute(s, userId, visits, rewards, catalog)| > 0
  {
    assert s.Near(visits[k], a);
    AttributeNames(s, userId, visits, rewards, catalog);
  }

  /** The worked example: a one-attraction catalog, a history whose first
      visit is at the attraction and whose second is far away, and no
      earlier rewards, give exactly one reward, on the first visit, with the
      oracle's points. */
  lemma OneAttractionExample(s: Scoring, userId: Uuid, a: Attraction, near: VisitedLocation, far: VisitedLocation)
    requires near.location == a.location
    requires s.dist(a.location, a.location) == 0.0 && s.proximityBuffer == DEFAULT_PROXIMITY_BUFFER
    ensures Attribute(s, userId, [near, far], [], [a])
            == [UserReward(near, a, s.rewardPoints(a.attractionId, userId))]
  {
    assert [a][..0] == [];
    assert s.Near(near, a);
    assert FirstNearIndex(s, [near, far], a) == Some(0);
  }

  class RewardsService {
    /** gpsUtil's static attraction catalog. */
    const attractions: seq<Attraction>
    /** `getDistance`, left abstract. */
    const dist: Distance
    /** RewardCentral. The reward-point cache is transparent to values. */
    const rewardCentral: RewardOracle
    var proximityBuffer: int

    constructor (attractions: seq<Attraction>, dist: Distance, rewardCentral: RewardOracle)
      ensures this.attractions == attractions && this.dist == dist && this.rewardCentral == rewardCentral
      ensures proximityBuffer == DEFAULT_PROXIMITY_BUFFER
    {
      this.attractions := attractions;
      this.dist := dist;
      this.rewardCentral := rewardCentral;
      proximityBuffer := DEFAULT_PROXIMITY_BUFFER;
    }

    /** The Lombok setter; later calls use the new buffer. */
    method SetProximityBuffer(proximityBuffer: int)
      modifies this`proximityBuffer
      ensures this.proximityBuffer == proximityBuffer
    {
      this.proximityBuffer := proximityBuffer;
    }

    function CurrentScoring(): Scoring
      reads this
    {
      Scoring(dist, proximityBuffer, rewardCentral)
    }

    /** `getRewardPoints`: the oracle's value for (attraction id, user id). */
    function GetRewardPoints(attraction: Attraction, user: User): (p: Int32)
      reads this
      // the points the reward fold records for this pair
      ensures p == CurrentScoring().rewardPoints(attraction.attractionId, user.userId)
    {
      rewardCentral(attraction.attractionId, user.userId)
    }

    /** `isNearAttraction`, with the current buffer. */
    predicate IsNearAttraction(visit: VisitedLocation, attraction: Attraction): (b: bool)
      reads this
      // the nearness the reward fold uses, under the buffer now in force
      ensures b <==> CurrentScoring().Near(visit, attraction)
      ensures b <==> dist(attraction.location, visit.location) <= proximityBuffer as real
    {
      IsNear(dist, proximityBuffer, visit, attraction)
    }

    /** `getClosestAttractions(from, limit)`. */
    function GetClosestAttractions(from: Location, limit: int): (r: Result<seq<Attraction>>)
      ensures r.Err? <==> limit < 0
      ensures r.Ok? ==> |r.value| == Min(limit, |attractions|)
      ensures r.Ok? ==> Sorted(dist, from, r.value) && multiset(r.value) <= multiset(attractions)
    {
      ClosestAttractions(dist, attractions, from, limit)
    }

    /** `calculateRewards(user)`: the history is read once, the rewarded
        names are collected, then each catalog attraction not yet rewarded
        gets a reward for its first near visit. Only the reward list
        changes. */
    method CalculateRewards(user: User)
      modifies user`userRewards
      ensures user.userRewards
              == Attribute(CurrentScoring(), user.userId, user.visitedLocations, old(user.userRewards), attractions)
      ensures old(user.Valid()) ==> user.Valid()
    {
      var userLocations := user.visitedLocations;
      var rewardedAttractionNames := RewardedNames(user.userRewards);
      ghost var s := CurrentScoring();
      ghost var initial := user.userRewards;
      for i := 0 to |attractions|
        invariant user.userRewards == Attribute(s, user.userId, userLocations, initial, attractions[..i])
        invariant rewardedAttractionNames == RewardedNames(user.userRewards)
      {
        var attraction := attractions[i];
        assert attractions[..i + 1][..i] == attractions[..i];
        if attraction.attractionName in rewardedAttractionNames {
          continue;
        }
        for j := 0 to |userLocations|
          invariant forall k :: 0 <= k < j ==> !s.Near(userLocations[k], attraction)
          invariant user.userRewards == Attribute(s, user.userId, userLocations, initial, attractions[..i])
          invariant rewardedAttractionNames == RewardedNames(user.userRewards)
        {
          if IsNearAttraction(userLocations[j], attraction) {
            user.AddUserReward(UserReward(userLocations[j], attraction, GetRewardPoints(attraction, user)));
            rewardedAttractionNames := rewardedAttractionNames + {attraction.attractionName};
            assert FirstNearIndex(s, userLocations, attraction) == Some(j);
            break;
          }
        }
      }
      assert attractions[..|attractions|] == attractions;
      if DistinctNames(initial) {
        AttributeKeepsDistinct(s, user.userId, userLocations, initial, attractions);
      }
    }
  }
}
