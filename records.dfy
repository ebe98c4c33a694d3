/** The app's data shapes: the API's transfer objects and the persisted
    restaurant entity. */
module Records {
  import opened Wrappers

  /** Swift `Double` values (ratings, coordinates, prices) are carried as exact
      numbers; the model only copies them or compares them with literals. */
  type Double = real

  /** Core Data's `Integer 16` attribute type. */
  newtype Int16 = x: int | -0x8000 <= x < 0x8000

  /** A restaurant as the API returns it: every field present. */
  datatype RestaurantDTO = RestaurantDTO(
    id: string,
    name: string,
    address: string,
    city: string,
    cuisine: string,
    rating: Double,
    latitude: Double,
    longitude: Double,
    imageURLs: seq<string>,
    openingHours: string,
    phoneNumber: string,
    priceLevel: int)

  /** A transport offer. Dates are whole seconds on a common clock. */
  datatype TransportOptionDTO = TransportOptionDTO(
    id: string,
    transportType: string,
    provider: string,
    departureTime: int,
    arrivalTime: int,
    price: Double,
    currency: string,
    origin: string,
    destination: string)

  /** The persisted restaurant entity: object-valued attributes are optional,
      scalar ones are not; `priceLevel` is a 16-bit integer. */
  datatype Restaurant = Restaurant(
    id: Option<string>,
    name: Option<string>,
    address: Option<string>,
    city: Option<string>,
    cuisine: Option<string>,
    rating: Double,
    latitude: Double,
    longitude: Double,
    imageURLs: Option<seq<string>>,
    openingHours: Option<string>,
    phoneNumber: Option<string>,
    priceLevel: Int16,
    isFavorite: bool)

  predicate FitsInt16(n: int) {
    -0x8000 <= n < 0x8000
  }

  /** `rec` holds exactly the values `d` supplies, field by field; the
      favourite flag is not among them. */
  predicate CarriesDto(rec: Restaurant, d: RestaurantDTO) {
    && rec.id == Some(d.id)
    && rec.name == Some(d.name)
    && rec.address == Some(d.address)
    && rec.city == Some(d.city)
    && rec.cuisine == Some(d.cuisine)
    && rec.rating == d.rating
    && rec.latitude == d.latitude
    && rec.longitude == d.longitude
    && rec.imageURLs == Some(d.imageURLs)
    && rec.openingHours == Some(d.openingHours)
    && rec.phoneNumber == Some(d.phoneNumber)
    && rec.priceLevel as int == d.priceLevel
  }
}
