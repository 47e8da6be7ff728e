/** Values and entities the tour-guide service works on: locations, attractions,
    visited locations, rewards, trip-pricing offers and the mutable user record. */
module Types {

  datatype Option<T> = None | Some(value: T)

  /** Java's 32-bit `int`. */
  newtype Int32 = x: int | -0x8000_0000 <= x < 0x8000_0000

  /** Java's 64-bit `long`. */
  newtype Int64 = x: int | -0x8000_0000_0000_0000 <= x < 0x8000_0000_0000_0000

  /** A `java.util.UUID`, as its two 64-bit halves. */
  datatype UUID = UUID(mostSigBits: Int64, leastSigBits: Int64)

  /** A point on Earth in degrees; the source's `double` coordinates are modelled as reals. */
  datatype Location = Location(latitude: real, longitude: real)

  /** A point of interest of the catalog. In the GPS library an attraction is itself a
      location, which is why its distance is taken with the attraction as first argument. */
  datatype Attraction = Attraction(attractionName: string, city: string, state: string,
                                   attractionId: UUID, location: Location)

  /** One timestamped observation of a user's position (time in epoch milliseconds). */
  datatype VisitedLocation = VisitedLocation(userId: UUID, location: Location, timeVisited: int)

  /** The points a user earned for an attraction, with the visit that earned them. */
  datatype UserReward = UserReward(visitedLocation: VisitedLocation, attraction: Attraction,
                                   rewardPoints: Int32)

  /** The part of a user's preferences the trip pricer consumes. */
  datatype UserPreferences = UserPreferences(numberOfAdults: Int32, numberOfChildren: Int32,
                                             tripDuration: Int32)

  /** A trip offer returned by the pricer. */
  datatype Provider = Provider(name: string, price: real, tripId: UUID)

  /** A registered user. Identity and name never change; the visited-location history,
      the reward list, the preferences and the cached trip deals are updated in place. */
  class User {
    const userId: UUID
    const userName: string
    var visitedLocations: seq<VisitedLocation>
    var userRewards: seq<UserReward>
    var userPreferences: UserPreferences
    var tripDeals: seq<Provider>

    constructor (userId: UUID, userName: string, preferences: UserPreferences)
      ensures this.userId == userId && this.userName == userName
      ensures visitedLocations == [] && userRewards == [] && tripDeals == []
      ensures userPreferences == preferences
    {
      this.userId := userId;
      this.userName := userName;
      visitedLocations := [];
      userRewards := [];
      userPreferences := preferences;
      tripDeals := [];
    }

    /** The most recent entry of the history. */
    function LastVisitedLocation(): (vl: VisitedLocation)
      reads this
      requires |visitedLocations| > 0
      ensures vl in visitedLocations
    {
      visitedLocations[|visitedLocations| - 1]
    }
  }
}
