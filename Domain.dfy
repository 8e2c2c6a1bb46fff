/** Value types shared by the reward engine, the user record and the
    registry: the location provider's records (locations, attractions,
    visits), the reward record, the trip pricer's offers and the few Java
    runtime conventions the core relies on (null, thrown exceptions,
    32-bit `int`). */
module Domain {

  /** A value that may be absent (`null` in the source). */
  datatype Option<T> = None | Some(value: T)

  /** The runtime exceptions the core can raise instead of returning. */
  datatype Error =
    | IndexOutOfBounds   // List.get on an index past the end
    | IllegalArgument    // Stream.limit with a negative size

  datatype Result<T> = Ok(value: T) | Err(error: Error)

  /** Java `java.util.UUID`, as an opaque number. */
  type Uuid = nat

  /** Java `java.util.Date`, as milliseconds since the epoch. */
  type Timestamp = int

  const INT32_MIN: int := -0x8000_0000
  const INT32_MAX: int := 0x7fff_ffff

  /** Java `int`. */
  type Int32 = x: int | INT32_MIN <= x <= INT32_MAX

  /** Two's-complement wrap-around of an exact integer into Java `int`. */
  function Wrap32(x: int): (r: Int32)
    ensures INT32_MIN <= x <= INT32_MAX ==> r == x
    ensures (r - x) % 0x1_0000_0000 == 0
  {
    (x - INT32_MIN) % 0x1_0000_0000 + INT32_MIN
  }

  /** gpsUtil `Location`: a coordinate pair in degrees (doubles in the source). */
  datatype Location = Location(latitude: real, longitude: real)

  /** gpsUtil `Attraction`. In the library it extends `Location`; here the
      coordinates are its `location` field. */
  datatype Attraction = Attraction(
    attractionName: string,
    city: string,
    state: string,
    attractionId: Uuid,
    location: Location)

  /** gpsUtil `VisitedLocation`: who was where, and when. */
  datatype VisitedLocation = VisitedLocation(userId: Uuid, location: Location, timeVisited: Timestamp)

  /** `UserReward`: the visit that earned it, the attraction and its points. */
  datatype UserReward = UserReward(visitedLocation: VisitedLocation, attraction: Attraction, rewardPoints: Int32)

  /** tripPricer `Provider`: one priced offer. */
  datatype Provider = Provider(name: string, price: real, tripId: Uuid)

  /** The part of `UserPreferences` the trip pricer is called with. */
  datatype UserPreferences = UserPreferences(numberOfAdults: int, numberOfChildren: int, tripDuration: int)

  /** The great-circle distance in statute miles, left abstract. */
  type Distance = (Location, Location) -> real

  /** RewardCentral's `getAttractionRewardPoints(attractionId, userId)`. */
  type RewardOracle = (Uuid, Uuid) -> Int32
}
