/**
 * The TypeScript geographical location (models/geographical_location.ts).
 * Both coordinates are bounded by ±90, although the longitude message says
 * [-180, 180]. JavaScript numbers are exact reals here.
 */
module TsGeoLocation {
  import opened Wrappers
  import GoGeoLocation

  datatype Location = Location(latitude: real, longitude: real)

  const LatitudeError := "latitude must range [-90, 90]"
  const LongitudeError := "longitude must range [-180, 180]"

  /** GeographicalLocation.create: latitude first, then longitude, inclusive bounds. */
  function Create(latitude: real, longitude: real): (r: Result<Location, string>)
    ensures r == Err(LatitudeError) <==> latitude > 90.0 || latitude < -90.0
    ensures r == Err(LongitudeError) <==> -90.0 <= latitude <= 90.0 && (longitude > 90.0 || longitude < -90.0)
    ensures r.Ok? <==> -90.0 <= latitude <= 90.0 && -90.0 <= longitude <= 90.0
    ensures r.Ok? ==> r.value == Location(latitude, longitude)
  {
    if latitude > 90.0 || latitude < -90.0 then Err(LatitudeError)
    else if longitude > 90.0 || longitude < -90.0 then Err(LongitudeError)
    else Ok(Location(latitude, longitude))
  }

  /**
   * Coordinate equality. GeographicalLocation declares no equals method;
   * Canteen.equals calls one, and the model takes it to compare both coordinates.
   */
  predicate Equals(a: Location, b: Location) {
    a.latitude == b.latitude && a.longitude == b.longitude
  }

  /** A longitude the message claims valid is rejected, with that very message. */
  lemma LongitudeMessageOverstatesRange()
    ensures Create(0.0, 120.0) == Err(LongitudeError)
  {
  }

  /**
   * The two variants disagree: every location the TypeScript variant accepts
   * the Go variant accepts too, but latitudes in (90, 180] only Go accepts.
   */
  lemma VariantsCompared(latitude: real, longitude: real)
    ensures Create(latitude, longitude).Ok? ==> GoGeoLocation.New(latitude, longitude).err.None?
    ensures 90.0 < latitude <= 180.0 && -90.0 <= longitude <= 90.0 ==>
              GoGeoLocation.New(latitude, longitude).err.None? && Create(latitude, longitude) == Err(LatitudeError)
  {
  }
}
