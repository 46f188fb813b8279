/**
 * The Go geographical location (model/geographical_location/geographical_location.go).
 * This variant bounds latitude by ±180 and longitude by ±90. Coordinates are
 * float32 in the source and exact reals here.
 */
module GoGeoLocation {
  import opened Wrappers
  import opened FieldErrors

  datatype Location = Location(latitude: real, longitude: real)

  const Model := "geographical location"
  const LatitudeTooLow := FieldError("latitude", Model, "geographical location latitude cannot be lower than -180")
  const LatitudeTooHigh := FieldError("latitude", Model, "geographical location latitude cannot be higher than 180")
  const LongitudeTooLow := FieldError("longitude", Model, "geographical location longitude cannot be lower than -90")
  const LongitudeTooHigh := FieldError("longitude", Model, "geographical location longitude cannot be higher than 90")

  function GrantLatitudeNotLower(latitude: real): (e: Option<FieldError>)
    ensures e.Some? <==> latitude < -180.0
    ensures e.Some? ==> e.value == LatitudeTooLow
  {
    if latitude < -180.0 then Some(LatitudeTooLow) else None
  }

  function GrantLatitudeNotHigher(latitude: real): (e: Option<FieldError>)
    ensures e.Some? <==> latitude > 180.0
    ensures e.Some? ==> e.value == LatitudeTooHigh
  {
    if latitude > 180.0 then Some(LatitudeTooHigh) else None
  }

  function GrantLongitudeNotLower(longitude: real): (e: Option<FieldError>)
    ensures e.Some? <==> longitude < -90.0
    ensures e.Some? ==> e.value == LongitudeTooLow
  {
    if longitude < -90.0 then Some(LongitudeTooLow) else None
  }

  function GrantLongitudeNotHigher(longitude: real): (e: Option<FieldError>)
    ensures e.Some? <==> longitude > 90.0
    ensures e.Some? ==> e.value == LongitudeTooHigh
  {
    if longitude > 90.0 then Some(LongitudeTooHigh) else None
  }

  /**
   * New: latitude lower bound, latitude upper bound, longitude lower bound,
   * longitude upper bound, in that order; bounds are inclusive and the
   * location carries both inputs even on error.
   */
  function New(latitude: real, longitude: real): (r: Checked<Location>)
    ensures r.value == Location(latitude, longitude)
    ensures latitude < -180.0 ==> r.err == Some(LatitudeTooLow)
    ensures latitude > 180.0 ==> r.err == Some(LatitudeTooHigh)
    ensures -180.0 <= latitude <= 180.0 && longitude < -90.0 ==> r.err == Some(LongitudeTooLow)
    ensures -180.0 <= latitude <= 180.0 && longitude > 90.0 ==> r.err == Some(LongitudeTooHigh)
    ensures r.err.None? <==> -180.0 <= latitude <= 180.0 && -90.0 <= longitude <= 90.0
    ensures r.err.Some? && r.err.value.field == "latitude" <==> !(-180.0 <= latitude <= 180.0)
  {
    var location := Location(latitude, longitude);
    var err1 := GrantLatitudeNotLower(latitude);
    if err1.Some? then Checked(location, err1)
    else
      var err2 := GrantLatitudeNotHigher(latitude);
      if err2.Some? then Checked(location, err2)
      else
        var err3 := GrantLongitudeNotLower(longitude);
        if err3.Some? then Checked(location, err3)
        else Checked(location, GrantLongitudeNotHigher(longitude))
  }

  /** The cases of model/geographicallocation/geographicallocation_test.go. */
  lemma NewMatchesTests()
    ensures New(-180.01, 45.0).err.value.field == "latitude"
    ensures New(180.01, 45.0).err.value.field == "latitude"
    ensures New(45.0, -90.01).err.value.field == "longitude"
    ensures New(45.0, 180.01).err.value.field == "longitude"
    ensures New(180.0, -90.0).err.None?
  {
  }
}
