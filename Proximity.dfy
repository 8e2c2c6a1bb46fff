/** Nearness of a visit to an attraction, and the catalog ordered by
    distance from a point (a stable sort followed by a truncation). The
    great-circle distance itself is a parameter `dist`. */
module Proximity {
  import opened Domain

  /** Default radius, in miles, within which a visit earns a reward. */
  const DEFAULT_PROXIMITY_BUFFER: int := 10

  /** Fixed radius, in miles, of the looser "is this attraction in range" test. */
  const ATTRACTION_PROXIMITY_RANGE: int := 200

  /** `isNearAttraction`: the visit lies within `buffer` miles of the attraction. */
  predicate IsNear(dist: Distance, buffer: int, visit: VisitedLocation, attraction: Attraction): (b: bool)
    // a visit at distance zero is near under any non-negative buffer
    ensures dist(attraction.location, visit.location) == 0.0 && buffer >= 0 ==> b
    // a negative buffer admits only visits at negative distance
    ensures b && buffer < 0 ==> dist(attraction.location, visit.location) < 0.0
  {
    dist(attraction.location, visit.location) <= buffer as real
  }

  /** `isWithinAttractionProximity`: the location lies within the fixed 200-mile range. */
  predicate IsWithinAttractionProximity(dist: Distance, attraction: Attraction, location: Location): (b: bool)
    // the range test is the nearness test at the fixed 200-mile radius
    ensures b <==> IsNear(dist, ATTRACTION_PROXIMITY_RANGE, VisitedLocation(0, location, 0), attraction)
  {
    dist(attraction.location, location) <= ATTRACTION_PROXIMITY_RANGE as real
  }

  /** A visit near an attraction under any buffer of at most 200 miles is
      also within the attraction's proximity range. */
  lemma NearImpliesWithinProximity(dist: Distance, buffer: int, visit: VisitedLocation, attraction: Attraction)
    requires buffer <= ATTRACTION_PROXIMITY_RANGE
    requires IsNear(dist, buffer, visit, attraction)
    ensures IsWithinAttractionProximity(dist, attraction, visit.location)
  {
  }

  /** The sort key of `getClosestAttractions`: distance from `from`. */
  function Key(dist: Distance, from: Location, a: Attraction): real
  {
    dist(a.location, from)
  }

  /** Non-decreasing distance from `from`. */
  predicate Sorted(dist: Distance, from: Location, s: seq<Attraction>)
  {
    forall i, j :: 0 <= i < j < |s| ==> Key(dist, from, s[i]) <= Key(dist, from, s[j])
  }

  /** The subsequence of `s` at distance exactly `k` from `from`. */
  function AtDistance(dist: Distance, from: Location, k: real, s: seq<Attraction>): seq<Attraction>
  {
    if s == [] then []
    else
      AtDistance(dist, from, k, s[..|s| - 1])
      + (if Key(dist, from, s[|s| - 1]) == k then [s[|s| - 1]] else [])
  }

  lemma {:induction false} AtDistanceConcat(dist: Distance, from: Location, k: real, a: seq<Attraction>, b: seq<Attraction>)
    ensures AtDistance(dist, from, k, a + b) == AtDistance(dist, from, k, a) + AtDistance(dist, from, k, b)
  {
    if b != [] {
      assert (a + b)[..|a + b| - 1] == a + b[..|b| - 1];
      AtDistanceConcat(dist, from, k, a, b[..|b| - 1]);
    } else {
      assert a + b == a;
    }
  }

  /** Inserts `x` after every element whose key is at most its own, so
      that equal keys keep their arrival order. */
  function Insert(dist: Distance, from: Location, s: seq<Attraction>, x: Attraction): seq<Attraction>
  {
    if s == [] || Key(dist, from, s[|s| - 1]) <= Key(dist, from, x) then s + [x]
    else Insert(dist, from, s[..|s| - 1], x) + [s[|s| - 1]]
  }

  lemma {:induction false} InsertMultiset(dist: Distance, from: Location, s: seq<Attraction>, x: Attraction)
    ensures multiset(Insert(dist, from, s, x)) == multiset(s) + multiset{x}
  {
    if !(s == [] || Key(dist, from, s[|s| - 1]) <= Key(dist, from, x)) {
      assert s == s[..|s| - 1] + [s[|s| - 1]];
      InsertMultiset(dist, from, s[..|s| - 1], x);
    }
  }

  lemma {:induction false} InsertSorted(dist: Distance, from: Location, s: seq<Attraction>, x: Attraction)
    requires Sorted(dist, from, s)
    ensures Sorted(dist, from, Insert(dist, from, s, x))
  {
    if !(s == [] || Key(dist, from, s[|s| - 1]) <= Key(dist, from, x)) {
      var init, last := s[..|s| - 1], s[|s| - 1];
      assert s == init + [last];
      InsertSorted(dist, from, init, x);
      InsertMultiset(dist, from, init, x);
      var t := Insert(dist, from, init, x);
      forall y | y in t ensures Key(dist, from, y) <= Key(dist, from, last) {
        assert y in multiset(t);
        if y != x {
          assert y in multiset(init);
        }
      }
      var r := t + [last];
      forall i, j | 0 <= i < j < |r| ensures Key(dist, from, r[i]) <= Key(dist, from, r[j]) {
        if j == |t| {
          assert r[i] in t;
        }
      }
    }
  }

  lemma {:induction false} InsertAtDistance(dist: Distance, from: Location, s: seq<Attraction>, x: Attraction, k: real)
    requires Sorted(dist, from, s)
    ensures AtDistance(dist, from, k, Insert(dist, from, s, x))
            == AtDistance(dist, from, k, s) + (if Key(dist, from, x) == k then [x] else [])
  {
    var r := Insert(dist, from, s, x);
    if s == [] || Key(dist, from, s[|s| - 1]) <= Key(dist, from, x) {
      assert r[..|r| - 1] == s;
    } else {
      var init, last := s[..|s| - 1], s[|s| - 1];
      assert s == init + [last];
      InsertAtDistance(dist, from, init, x, k);
      var t := Insert(dist, from, init, x);
      assert r == t + [last] && r[..|r| - 1] == t;
      var ofX: seq<Attraction> := if Key(dist, from, x) == k then [x] else [];
      var ofLast: seq<Attraction> := if Key(dist, from, last) == k then [last] else [];
      assert AtDistance(dist, from, k, r) == AtDistance(dist, from, k, init) + ofX + ofLast;
      assert AtDistance(dist, from, k, s) == AtDistance(dist, from, k, init) + ofLast;
      assert ofX == [] || ofLast == [];
    }
  }

  /** Inserting into a sorted sequence gives a sorted permutation that keeps
      equally distant attractions in arrival order. */
  lemma InsertSpec(dist: Distance, from: Location, s: seq<Attraction>, x: Attraction)
    requires Sorted(dist, from, s)
    ensures multiset(Insert(dist, from, s, x)) == multiset(s) + multiset{x}
    ensures Sorted(dist, from, Insert(dist, from, s, x))
    ensures forall k :: AtDistance(dist, from, k, Insert(dist, from, s, x))
                        == AtDistance(dist, from, k, s) + (if Key(dist, from, x) == k then [x] else [])
  {
    InsertMultiset(dist, from, s, x);
    InsertSorted(dist, from, s, x);
    forall k ensures AtDistance(dist, from, k, Insert(dist, from, s, x))
                     == AtDistance(dist, from, k, s) + (if Key(dist, from, x) == k then [x] else [])
    {
      InsertAtDistance(dist, from, s, x, k);
    }
  }

  /** The stream sort of `getClosestAttractions`: stable insertion sort by distance. */
  function SortByDistance(dist: Distance, from: Location, s: seq<Attraction>): (r: seq<Attraction>)
    ensures multiset(r) == multiset(s) && |r| == |s|
    ensures Sorted(dist, from, r)
    ensures forall k :: AtDistance(dist, from, k, r) == AtDistance(dist, from, k, s)
  {
    if s == [] then []
    else
      var init, last := s[..|s| - 1], s[|s| - 1];
      assert s == init + [last];
      var t := SortByDistance(dist, from, init);
      InsertSpec(dist, from, t, last);
      Insert(dist, from, t, last)
  }

  function Min(a: int, b: int): int
  {
    if a <= b then a else b
  }

  /** `getClosestAttractions(from, limit)`: the catalog sorted by distance
      from `from`, truncated to `limit`. A negative limit makes the
      stream throw. */
  function ClosestAttractions(dist: Distance, catalog: seq<Attraction>, from: Location, limit: int)
    : (r: Result<seq<Attraction>>)
    ensures r.Err? <==> limit < 0
    ensures r.Err? ==> r.error == IllegalArgument
    ensures r.Ok? ==> |r.value| == Min(limit, |catalog|)
    ensures r.Ok? ==> Sorted(dist, from, r.value)
    ensures r.Ok? ==> multiset(r.value) <= multiset(catalog)
    // nothing left out is closer than anything kept
    ensures r.Ok? ==> forall x, y :: x in r.value && y in multiset(catalog) - multiset(r.value)
                                     ==> Key(dist, from, x) <= Key(dist, from, y)
    // among equally distant attractions, the kept ones are the first in catalog order
    ensures r.Ok? ==> forall k :: AtDistance(dist, from, k, r.value) <= AtDistance(dist, from, k, catalog)
  {
    if limit < 0 then Err(IllegalArgument)
    else
      var n := Min(limit, |catalog|);
      TruncationSpec(dist, from, catalog, n);
      Ok(SortByDistance(dist, from, catalog)[..n])
  }

  /** In a sorted sequence, everything before a cut is no farther than
      everything after it. */
  lemma SortedCut(dist: Distance, from: Location, s: seq<Attraction>, n: nat)
    requires n <= |s| && Sorted(dist, from, s)
    ensures forall x, y :: x in s[..n] && y in s[n..] ==> Key(dist, from, x) <= Key(dist, from, y)
  {
    forall x, y | x in s[..n] && y in s[n..] ensures Key(dist, from, x) <= Key(dist, from, y) {
      var p :| 0 <= p < n && s[..n][p] == x;
      var q :| 0 <= q < |s| - n && s[n..][q] == y;
      assert s[p] == x && s[n + q] == y;
    }
  }

  /** The first `n` attractions of the sorted catalog. */
  lemma TruncationSpec(dist: Distance, from: Location, catalog: seq<Attraction>, n: nat)
    requires n <= |catalog|
    ensures var kept := SortByDistance(dist, from, catalog)[..n];
      && Sorted(dist, from, kept)
      && multiset(kept) <= multiset(catalog)
      && (forall x, y :: x in kept && y in multiset(catalog) - multiset(kept)
                         ==> Key(dist, from, x) <= Key(dist, from, y))
      && (forall k :: AtDistance(dist, from, k, kept) <= AtDistance(dist, from, k, catalog))
  {
    var sorted := SortByDistance(dist, from, catalog);
    var kept, rest := sorted[..n], sorted[n..];
    assert sorted == kept + rest;
    assert multiset(catalog) - multiset(kept) == multiset(rest);
    SortedCut(dist, from, sorted, n);
    forall k ensures AtDistance(dist, from, k, kept) <= AtDistance(dist, from, k, catalog) {
      AtDistanceConcat(dist, from, k, kept, rest);
    }
  }
}
