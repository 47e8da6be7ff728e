/** The nearby-attraction queries of the tour-guide service: rank the catalog by
    distance from a visited location, keep the closest five, and describe each kept
    attraction for display. The distance formula and the reward-point lookup belong to
    the rewards service and are parameters here. */
module Nearby {
  import opened Types
  import opened Ranking

  /** How many attractions the query keeps. */
  const NearbyLimit: nat := 5

  function Min(a: nat, b: nat): nat
  {
    if a <= b then a else b
  }

  /** The sort key of the query: an attraction's distance from `from`. */
  function DistanceFrom(distance: (Location, Location) -> real, from: Location): Attraction -> real
  {
    (a: Attraction) => distance(a.location, from)
  }

  /** The catalog sorted by distance from the visited location (stably) and cut to its
      first `NearbyLimit` entries. */
  function NearByAttractions(attractions: seq<Attraction>, visitedLocation: VisitedLocation,
                             distance: (Location, Location) -> real): (r: seq<Attraction>)
    ensures |r| == Min(NearbyLimit, |attractions|)
    ensures multiset(r) <= multiset(attractions)
    ensures SortedBy(r, DistanceFrom(distance, visitedLocation.location))
  {
    var sorted := StableSort(attractions, DistanceFrom(distance, visitedLocation.location));
    var n := Min(NearbyLimit, |attractions|);
    assert sorted == sorted[..n] + sorted[n..];
    sorted[..n]
  }

  /** Every catalog entry the query leaves out is at least as far from the visited
      location as every attraction it returns. */
  lemma LeftOutAreFarther(attractions: seq<Attraction>, visitedLocation: VisitedLocation,
                          distance: (Location, Location) -> real, a: Attraction, i: nat)
    requires multiset(NearByAttractions(attractions, visitedLocation, distance))[a]
             < multiset(attractions)[a]
    requires i < |NearByAttractions(attractions, visitedLocation, distance)|
    ensures distance(NearByAttractions(attractions, visitedLocation, distance)[i].location,
                     visitedLocation.location)
            <= distance(a.location, visitedLocation.location)
  {
    var key := DistanceFrom(distance, visitedLocation.location);
    var sorted := StableSort(attractions, key);
    var n := Min(NearbyLimit, |attractions|);
    assert sorted == sorted[..n] + sorted[n..];
    assert multiset(sorted[n..])[a] > 0;
    var j :| n <= j < |sorted| && sorted[j] == a;
    assert key(sorted[i]) <= key(sorted[j]);
  }

  /** Attractions at the same distance come out in catalog order: for every distance,
      the returned attractions at that distance are a prefix of the catalog's
      attractions at that distance. */
  lemma KeepsCatalogOrder(attractions: seq<Attraction>, visitedLocation: VisitedLocation,
                          distance: (Location, Location) -> real, d: real)
    ensures var key := DistanceFrom(distance, visitedLocation.location);
            WithKey(NearByAttractions(attractions, visitedLocation, distance), key, d)
            <= WithKey(attractions, key, d)
  {
    var key := DistanceFrom(distance, visitedLocation.location);
    var sorted := StableSort(attractions, key);
    WithKeyOfPrefix(sorted, Min(NearbyLimit, |attractions|), key, d);
    StableSortIsStable(attractions, key, d);
  }

  /** The result does not depend on how the catalog is sorted: any stable ascending
      rearrangement of the catalog, cut to the limit, gives the same attractions in the
      same order. */
  lemma IsPrefixOfAnyStableSort(attractions: seq<Attraction>, visitedLocation: VisitedLocation,
                                distance: (Location, Location) -> real, sorted: seq<Attraction>)
    requires SortedBy(sorted, DistanceFrom(distance, visitedLocation.location))
    requires forall d :: WithKey(sorted, DistanceFrom(distance, visitedLocation.location), d)
                         == WithKey(attractions, DistanceFrom(distance, visitedLocation.location), d)
    ensures |sorted| == |attractions|
    ensures NearByAttractions(attractions, visitedLocation, distance)
            == sorted[..Min(NearbyLimit, |attractions|)]
  {
    var key := DistanceFrom(distance, visitedLocation.location);
    var mine := StableSort(attractions, key);
    forall d ensures WithKey(mine, key, d) == WithKey(sorted, key, d) {
      StableSortIsStable(attractions, key, d);
    }
    StableSortUnique(mine, sorted, key);
  }

  /** The display record the query builds for one kept attraction. */
  datatype NearbyAttraction = NearbyAttraction(
    attractionName: string,
    attractionLatitude: real,
    attractionLongitude: real,
    userLatitude: real,
    userLongitude: real,
    distanceInMiles: real,
    rewardPoints: Int32)

  function AttractionInfo(attraction: Attraction, visitedLocation: VisitedLocation, user: User,
                          distance: (Location, Location) -> real,
                          rewardPoints: (Attraction, User) -> Int32): NearbyAttraction
  {
    NearbyAttraction(
      attraction.attractionName,
      attraction.location.latitude,
      attraction.location.longitude,
      visitedLocation.location.latitude,
      visitedLocation.location.longitude,
      distance(attraction.location, visitedLocation.location),
      rewardPoints(attraction, user))
  }

  /** One display record per nearby attraction, in the order of `NearByAttractions`. */
  function NearbyAttractionsWithDetails(attractions: seq<Attraction>, visitedLocation: VisitedLocation,
                                        user: User, distance: (Location, Location) -> real,
                                        rewardPoints: (Attraction, User) -> Int32)
    : (r: seq<NearbyAttraction>)
    ensures var nearby := NearByAttractions(attractions, visitedLocation, distance);
            && |r| == |nearby|
            && forall i :: 0 <= i < |r| ==>
                 && r[i].attractionName == nearby[i].attractionName
                 && r[i].attractionLatitude == nearby[i].location.latitude
                 && r[i].attractionLongitude == nearby[i].location.longitude
                 && r[i].userLatitude == visitedLocation.location.latitude
                 && r[i].userLongitude == visitedLocation.location.longitude
                 && r[i].distanceInMiles == distance(nearby[i].location, visitedLocation.location)
                 && r[i].rewardPoints == rewardPoints(nearby[i], user)
  {
    var nearby := NearByAttractions(attractions, visitedLocation, distance);
    seq(|nearby|, i requires 0 <= i < |nearby| =>
      AttractionInfo(nearby[i], visitedLocation, user, distance, rewardPoints))
  }

  /** The records answer the display query: there are min(5, |catalog|) of them, their
      distances never decrease, and the i-th describes the i-th nearby attraction, which
      is a catalog attraction, with its distance from the visited location and the
      points it is worth to the user. */
  lemma DetailsAreNearestFirst(attractions: seq<Attraction>, visitedLocation: VisitedLocation,
                               user: User, distance: (Location, Location) -> real,
                               rewardPoints: (Attraction, User) -> Int32)
    ensures var r := NearbyAttractionsWithDetails(attractions, visitedLocation, user, distance, rewardPoints);
            && |r| == Min(NearbyLimit, |attractions|)
            && (forall i, j :: 0 <= i < j < |r| ==> r[i].distanceInMiles <= r[j].distanceInMiles)
            && (forall i :: 0 <= i < |r| ==>
                  DescribedBy(r[i], NearByAttractions(attractions, visitedLocation, distance)[i], attractions,
                              visitedLocation, user, distance, rewardPoints))
  {
    var r := NearbyAttractionsWithDetails(attractions, visitedLocation, user, distance, rewardPoints);
    var nearby := NearByAttractions(attractions, visitedLocation, distance);
    var key := DistanceFrom(distance, visitedLocation.location);
    forall i, j | 0 <= i < j < |r| ensures r[i].distanceInMiles <= r[j].distanceInMiles {
      assert r[i].distanceInMiles == key(nearby[i]);
      assert r[j].distanceInMiles == key(nearby[j]);
    }
    forall i | 0 <= i < |r|
      ensures DescribedBy(r[i], nearby[i], attractions, visitedLocation, user, distance, rewardPoints)
    {
      var a := nearby[i];
      assert multiset(nearby)[a] > 0;
      assert multiset(attractions)[a] > 0;
    }
  }

  /** `record` describes the catalog attraction `a` as seen from `visitedLocation`. */
  ghost predicate DescribedBy(record: NearbyAttraction, a: Attraction, attractions: seq<Attraction>,
                              visitedLocation: VisitedLocation, user: User,
                              distance: (Location, Location) -> real,
                              rewardPoints: (Attraction, User) -> Int32)
  {
    && a in attractions
    && record.attractionName == a.attractionName
    && record.attractionLatitude == a.location.latitude
    && record.attractionLongitude == a.location.longitude
    && record.distanceInMiles == distance(a.location, visitedLocation.location)
    && record.rewardPoints == rewardPoints(a, user)
  }

  /** No catalog attraction missing from the records is closer to the visited location
      than any attraction the records describe. */
  lemma DetailsLeaveOutOnlyFarther(attractions: seq<Attraction>, visitedLocation: VisitedLocation,
                                   user: User, distance: (Location, Location) -> real,
                                   rewardPoints: (Attraction, User) -> Int32, a: Attraction, i: nat)
    requires a in attractions
    requires forall record :: record in NearbyAttractionsWithDetails(attractions, visitedLocation, user,
                                                                  distance, rewardPoints)
                              ==> record.attractionName != a.attractionName
    requires i < |NearbyAttractionsWithDetails(attractions, visitedLocation, user, distance, rewardPoints)|
    ensures NearbyAttractionsWithDetails(attractions, visitedLocation, user, distance, rewardPoints)[i]
              .distanceInMiles
            <= distance(a.location, visitedLocation.location)
  {
    var r := NearbyAttractionsWithDetails(attractions, visitedLocation, user, distance, rewardPoints);
    var nearby := NearByAttractions(attractions, visitedLocation, distance);
    forall j | 0 <= j < |nearby| ensures nearby[j] != a {
      assert r[j] in r;
    }
    assert multiset(nearby)[a] == 0 < multiset(attractions)[a];
    LeftOutAreFarther(attractions, visitedLocation, distance, a, i);
  }
}
