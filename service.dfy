/** The sequential state-changing part of the tour-guide service: the in-memory user
    registry keyed by user name, the cached-or-fresh location lookup, and the trip-deal
    request that hands the user's cumulative reward points to the trip pricer.
    The GPS reading, the rewards computation and the trip pricer are external; the GPS
    reading of a call is a parameter of that call, the other two are fixed functions
    the service is built with. */
module Service {
  import opened Types
  import opened RewardPoints

  /** The key the service presents to the trip pricer. */
  const TripPricerApiKey: string := "test-server-api-key"

  /** Every user in the registry is filed under its own name. */
  ghost predicate KeyedByName(users: map<string, User>)
  {
    forall name :: name in users ==> users[name].userName == name
  }

  /** The registry after `addUser(user)`: the user is filed under its name unless that
      name is already taken, in which case nothing changes. */
  function Inserted(users: map<string, User>, user: User): (r: map<string, User>)
    ensures r.Keys == users.Keys + {user.userName}
    ensures user.userName in r && (user.userName !in users ==> r[user.userName] == user)
    ensures forall name :: name in users ==> name in r && r[name] == users[name]
  {
    if user.userName in users then users else users[user.userName := user]
  }

  /** Adding the same user a second time changes nothing. */
  lemma InsertedIdempotent(users: map<string, User>, user: User)
    ensures Inserted(Inserted(users, user), user) == Inserted(users, user)
  {
  }

  /** Adding a user keeps every user filed under its own name. */
  lemma InsertedKeyedByName(users: map<string, User>, user: User)
    requires KeyedByName(users)
    ensures KeyedByName(Inserted(users, user))
  {
  }

  /** What `getUserLocation` answers and leaves behind, given the history before the
      call and the reading the GPS would give: the latest recorded location if there is
      one, otherwise the fresh reading, appended. */
  datatype LocationAnswer = LocationAnswer(returned: VisitedLocation, history: seq<VisitedLocation>)

  function CachedOrFresh(history: seq<VisitedLocation>, reading: VisitedLocation): (r: LocationAnswer)
    ensures r.history != [] && r.returned == r.history[|r.history| - 1]
    ensures history != [] ==> r.history == history
    ensures history == [] ==> r.history == [reading]
  {
    if |history| > 0 then LocationAnswer(history[|history| - 1], history)
    else LocationAnswer(reading, history + [reading])
  }

  /** Once a location is recorded, further queries answer the same location, leave the
      history alone and never use their reading. */
  lemma CachedOrFreshIsStable(history: seq<VisitedLocation>, first: VisitedLocation,
                              later: VisitedLocation)
    ensures CachedOrFresh(CachedOrFresh(history, first).history, later)
            == CachedOrFresh(history, first)
  {
  }

  class TourGuideService {
    /** `rewardsService.calculateRewards(user)`: the user's reward list after the rewards
        service has looked at the user's history. */
    const calculateRewards: (UUID, seq<VisitedLocation>, seq<UserReward>) -> seq<UserReward>
    /** `tripPricer.getPrice(apiKey, userId, adults, children, nights, rewardPoints)`. */
    const getPrice: (string, UUID, Int32, Int32, Int32, Int32) -> seq<Provider>
    var internalUserMap: map<string, User>

    ghost predicate Valid()
      reads this
    {
      KeyedByName(internalUserMap)
    }

    constructor (calculateRewards: (UUID, seq<VisitedLocation>, seq<UserReward>) -> seq<UserReward>,
                 getPrice: (string, UUID, Int32, Int32, Int32, Int32) -> seq<Provider>)
      ensures Valid()
      ensures internalUserMap == map[]
      ensures this.calculateRewards == calculateRewards && this.getPrice == getPrice
    {
      this.calculateRewards := calculateRewards;
      this.getPrice := getPrice;
      internalUserMap := map[];
    }

    /** Files `user` under its name unless the name is already registered. */
    method AddUser(user: User)
      requires Valid()
      modifies this
      ensures Valid()
      ensures internalUserMap == Inserted(old(internalUserMap), user)
    {
      if user.userName !in internalUserMap {
        internalUserMap := internalUserMap[user.userName := user];
      }
      InsertedKeyedByName(old(internalUserMap), user);
    }

    /** The user registered under `userName`, or `None` (Java's `null`) if there is none. */
    method GetUser(userName: string) returns (user: Option<User>)
      ensures user.Some? <==> userName in internalUserMap
      ensures user.Some? ==> user.value == internalUserMap[userName]
      ensures user.Some? && Valid() ==> user.value.userName == userName
    {
      if userName in internalUserMap {
        user := Some(internalUserMap[userName]);
      } else {
        user := None;
      }
    }

    /** Every registered user, once each, in no particular order. */
    method GetAllUsers() returns (users: seq<User>)
      requires Valid()
      ensures |users| == |internalUserMap|
      ensures forall i :: 0 <= i < |users| ==> users[i] in internalUserMap.Values
      ensures forall name :: name in internalUserMap ==> internalUserMap[name] in users
      ensures forall i, j :: 0 <= i < j < |users| ==> users[i] != users[j]
    {
      var remaining := internalUserMap.Keys;
      ghost var taken: set<string> := {};
      users := [];
      while remaining != {}
        invariant remaining + taken == internalUserMap.Keys && remaining !! taken
        invariant |users| == |taken|
        invariant forall i :: 0 <= i < |users| ==> users[i].userName in taken
        invariant forall name :: name in taken ==> internalUserMap[name] in users
        invariant forall i :: 0 <= i < |users| ==> users[i] in internalUserMap.Values
        invariant forall i, j :: 0 <= i < j < |users| ==> users[i] != users[j]
        decreases remaining
      {
        var name :| name in remaining;
        var user := internalUserMap[name];
        users := users + [user];
        remaining := remaining - {name};
        taken := taken + {name};
      }
      assert internalUserMap.Keys == taken;
    }

    /** Fetches a location for the user, appends it to the history, lets the rewards
        service update the user's rewards, and returns the location. `reading` is what
        the GPS answers on this call. */
    method TrackUserLocation(user: User, reading: VisitedLocation) returns (visitedLocation: VisitedLocation)
      modifies user`visitedLocations, user`userRewards
      ensures visitedLocation == reading
      ensures user.visitedLocations == old(user.visitedLocations) + [reading]
      ensures user.userRewards == calculateRewards(user.userId, user.visitedLocations, old(user.userRewards))
    {
      visitedLocation := reading;
      user.visitedLocations := user.visitedLocations + [visitedLocation];
      user.userRewards := calculateRewards(user.userId, user.visitedLocations, user.userRewards);
    }

    /** The user's latest recorded location, or, when none is recorded yet, the result of
        tracking the user now. */
    method GetUserLocation(user: User, reading: VisitedLocation) returns (visitedLocation: VisitedLocation)
      modifies user`visitedLocations, user`userRewards
      ensures LocationAnswer(visitedLocation, user.visitedLocations)
              == CachedOrFresh(old(user.visitedLocations), reading)
      ensures old(user.visitedLocations) != [] ==> user.userRewards == old(user.userRewards)
      ensures old(user.visitedLocations) == [] ==>
                user.userRewards == calculateRewards(user.userId, [reading], old(user.userRewards))
    {
      if |user.visitedLocations| > 0 {
        visitedLocation := user.LastVisitedLocation();
      } else {
        visitedLocation := TrackUserLocation(user, reading);
      }
    }

    /** Asks the trip pricer for offers matching the user's preferences and cumulative
        reward points, records them on the user and returns them. */
    method GetTripDeals(user: User) returns (providers: seq<Provider>)
      modifies user`tripDeals
      ensures providers == getPrice(TripPricerApiKey, user.userId,
                                    user.userPreferences.numberOfAdults,
                                    user.userPreferences.numberOfChildren,
                                    user.userPreferences.tripDuration,
                                    CumulativeRewardPoints(user.userRewards))
      ensures user.tripDeals == providers
    {
      var cumulativeRewardPoints := CumulativeRewardPoints(user.userRewards);
      providers := getPrice(TripPricerApiKey, user.userId,
                            user.userPreferences.numberOfAdults,
                            user.userPreferences.numberOfChildren,
                            user.userPreferences.tripDuration,
                            cumulativeRewardPoints);
      user.tripDeals := providers;
    }
  }
}
