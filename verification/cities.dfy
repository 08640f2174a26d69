/** A city of the catalogue, as loaded from the cities file. */
module Cities {

  /** Latitude and longitude are in degrees; the timezone is an IANA identifier. */
  datatype City = City(
    name: string,
    latitude: real,
    longitude: real,
    timezone: string,
    countryCode: string,
    population: int)

  /** Two cities are "the same selection" when name and country code agree. */
  predicate SameKey(a: City, b: City) {
    a.name == b.name && a.countryCode == b.countryCode
  }
}
