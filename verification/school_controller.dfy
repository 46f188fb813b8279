/**
 * The school handlers (controllers/school_controller.ts) with the
 * repository abstracted away: each repository call is replaced by the
 * answer it gave, and each write by the value the handler hands to it.
 */
module SchoolController {
  import opened Wrappers
  import opened TsCommon
  import opened ApiErrors
  import TsGeoLocation
  import TsCanteen
  import TsSchool

  type School = TsSchool.School
  type Canteen = TsCanteen.Canteen

  /** What SchoolRepository.school answered: a failure, no school, or a school. */
  type SchoolLookup = Result<Option<School>, ApiError>

  /**
   * A handler's response together with the school it passed to the
   * repository's create or update, if it got that far.
   */
  datatype Handled<T> = Handled(response: Result<T, ApiError>, stored: Option<School>)

  datatype SchoolsItem = SchoolsItem(id: Option<string>, acronym: string, name: string)
  datatype CanteenView = CanteenView(id: string, location: TsGeoLocation.Location, name: string)
  datatype SchoolView = SchoolView(id: Option<string>, acronym: string, name: string, canteens: seq<CanteenView>)

  /**
   * querySchoolById: a repository failure becomes 500, no school becomes
   * 404, and a school is returned as found.
   */
  function QuerySchoolById(lookup: SchoolLookup): (r: Result<School, ApiError>)
    ensures r.Ok? <==> lookup.Ok? && lookup.value.Some?
    ensures r.Ok? ==> r.value == lookup.value.value
    ensures r.Err? ==> (r.error == InternalServerError <==> lookup.Err?)
    ensures r.Err? ==> (r.error == NotFound <==> lookup == Ok(None))
  {
    match lookup
    case Err(_) => Err(InternalServerError)
    case Ok(None) => Err(NotFound)
    case Ok(Some(school)) => Ok(school)
  }

  /** The `id`, `location` and `name` view of a canteen, with the name as id. */
  function CanteenViews(canteens: seq<Canteen>): (r: seq<CanteenView>)
    ensures |r| == |canteens|
    ensures forall i :: 0 <= i < |r| ==>
              r[i].id == canteens[i].name && r[i].name == canteens[i].name && r[i].location == canteens[i].location
  {
    seq(|canteens|, i requires 0 <= i < |canteens| => CanteenView(canteens[i].name, canteens[i].location, canteens[i].name))
  }

  /** The detailed (and created) school view: its canteens in order, each with id = name. */
  function SchoolViewOf(school: School): (v: SchoolView)
    ensures v.id == school.oid && v.acronym == school.acronym && v.name == school.name
    ensures v.canteens == CanteenViews(school.canteens)
  {
    SchoolView(school.oid, school.acronym, school.name, CanteenViews(school.canteens))
  }

  /**
   * availableSchools: a repository failure becomes 500, an empty list 404,
   * and otherwise one item per school, in order.
   */
  function AvailableSchools(listing: Result<seq<School>, ApiError>): (r: Result<seq<SchoolsItem>, ApiError>)
    ensures listing.Err? ==> r == Err(InternalServerError)
    ensures listing == Ok([]) ==> r == Err(NotFound)
    ensures listing.Ok? && |listing.value| > 0 ==>
              && r.Ok? && |r.value| == |listing.value|
              && forall i :: 0 <= i < |r.value| ==>
                   r.value[i] == SchoolsItem(listing.value[i].oid, listing.value[i].acronym, listing.value[i].name)
  {
    match listing
    case Err(_) => Err(InternalServerError)
    case Ok(schools) =>
      if |schools| > 0 then
        Ok(seq(|schools|, i requires 0 <= i < |schools| => SchoolsItem(schools[i].oid, schools[i].acronym, schools[i].name)))
      else Err(NotFound)
  }

  /** detailedSchoolInformation: the lookup's error unchanged, or the view of the school found. */
  function DetailedSchoolInformation(lookup: SchoolLookup): (r: Result<SchoolView, ApiError>)
    ensures r.Err? <==> QuerySchoolById(lookup).Err?
    ensures r.Err? ==> r.error == QuerySchoolById(lookup).error
    ensures r.Ok? ==> lookup.Ok? && lookup.value.Some? && r.value == SchoolViewOf(lookup.value.value)
  {
    match QuerySchoolById(lookup)
    case Err(e) => Err(e)
    case Ok(school) => Ok(SchoolViewOf(school))
  }

  // ---------------------------------------------------------------------------
  // createSchool

  datatype LocationRequest = LocationRequest(latitude: real, longitude: real)
  datatype CanteenRequest = CanteenRequest(name: Option<string>, location: LocationRequest)
  datatype CreateSchoolRequest = CreateSchoolRequest(acronym: Option<string>, name: Option<string>,
                                                     canteens: seq<CanteenRequest>)

  const AlreadyExists := "School already exists"

  /**
   * One requested canteen: both the location and the name are validated,
   * and the location's error, if any, is the one reported.
   */
  function BuildCanteen(request: CanteenRequest, ref: Ref): (r: Result<Canteen, string>)
    ensures TsGeoLocation.Create(request.location.latitude, request.location.longitude).Err? ==>
              r == Err(TsGeoLocation.Create(request.location.latitude, request.location.longitude).error)
    ensures TsGeoLocation.Create(request.location.latitude, request.location.longitude).Ok?
            && CreateNonEmptyString(request.name).Err?
            ==> r == Err(EmptyStringError)
    ensures r.Ok? <==> TsGeoLocation.Create(request.location.latitude, request.location.longitude).Ok?
                       && CreateNonEmptyString(request.name).Ok?
    ensures r.Ok? ==> r.value == TsCanteen.Create(ref, TsGeoLocation.Create(request.location.latitude,
                        request.location.longitude).value, CreateNonEmptyString(request.name).value)
  {
    var location := TsGeoLocation.Create(request.location.latitude, request.location.longitude);
    var name := CreateNonEmptyString(request.name);
    if location.Err? then Err(location.error)
    else if name.Err? then Err(name.error)
    else Ok(TsCanteen.Create(ref, location.value, name.value))
  }

  /** The requested canteens, the i-th built as a new object with identity firstRef + i. */
  function BuildCanteens(requests: seq<CanteenRequest>, firstRef: Ref): (r: seq<Result<Canteen, string>>)
    ensures |r| == |requests|
    ensures forall i :: 0 <= i < |r| ==> r[i] == BuildCanteen(requests[i], firstRef + i)
  {
    seq(|requests|, i requires 0 <= i < |requests| => BuildCanteen(requests[i], firstRef + i))
  }

  /** The canteens of results that are all Ok. */
  function Unwrapped(results: seq<Result<Canteen, string>>): (r: seq<Canteen>)
    requires forall i :: 0 <= i < |results| ==> results[i].Ok?
    ensures |r| == |results| && forall i :: 0 <= i < |r| ==> r[i] == results[i].value
  {
    seq(|results|, i requires 0 <= i < |results| => results[i].value)
  }

  /** The errors of `[acronym, ...canteens, name]`, in that order. */
  function ValidationErrors(acronym: Result<NonEmptyString, string>, canteens: seq<Result<Canteen, string>>,
                            name: Result<NonEmptyString, string>): (r: seq<Option<string>>)
    ensures |r| == |canteens| + 2
    ensures r[0] == ErrorOf(acronym) && r[|canteens| + 1] == ErrorOf(name)
    ensures forall i :: 0 <= i < |canteens| ==> r[i + 1] == ErrorOf(canteens[i])
  {
    [ErrorOf(acronym)] + seq(|canteens|, i requires 0 <= i < |canteens| => ErrorOf(canteens[i])) + [ErrorOf(name)]
  }

  /** The request's values once every one of them has been validated. */
  datatype Validated = Validated(acronym: NonEmptyString, canteens: seq<Canteen>, name: NonEmptyString)

  /**
   * The validation step of createSchool: the acronym, every canteen and the
   * name are all validated, and the first error in the order
   * acronym, canteens, name is the one reported.
   */
  function ValidateRequest(request: CreateSchoolRequest, firstRef: Ref): (r: Result<Validated, string>)
    ensures CreateNonEmptyString(request.acronym).Err? ==> r == Err(EmptyStringError)
    ensures CreateNonEmptyString(request.acronym).Ok? ==>
              forall k :: 0 <= k < |request.canteens| && BuildCanteen(request.canteens[k], firstRef + k).Err?
                          && (forall j :: 0 <= j < k ==> BuildCanteen(request.canteens[j], firstRef + j).Ok?)
                          ==> r == Err(BuildCanteen(request.canteens[k], firstRef + k).error)
    ensures CreateNonEmptyString(request.acronym).Ok?
            && (forall k :: 0 <= k < |request.canteens| ==> BuildCanteen(request.canteens[k], firstRef + k).Ok?)
            && CreateNonEmptyString(request.name).Err?
            ==> r == Err(EmptyStringError)
    ensures r.Ok? <==> && CreateNonEmptyString(request.acronym).Ok?
                       && CreateNonEmptyString(request.name).Ok?
                       && forall k :: 0 <= k < |request.canteens| ==> BuildCanteen(request.canteens[k], firstRef + k).Ok?
    ensures r.Ok? ==>
              && Some(r.value.acronym.value) == request.acronym
              && Some(r.value.name.value) == request.name
              && |r.value.canteens| == |request.canteens|
              && (forall i :: 0 <= i < |request.canteens| ==>
                    BuildCanteen(request.canteens[i], firstRef + i) == Ok(r.value.canteens[i]))
              && TsSchool.DistinctObjects(r.value.canteens)
  {
    var acronym := CreateNonEmptyString(request.acronym);
    var name := CreateNonEmptyString(request.name);
    var canteens := BuildCanteens(request.canteens, firstRef);
    var firstError := FirstError(ValidationErrors(acronym, canteens, name));
    FirstErrorIsOrdered(acronym, canteens, name, firstError);
    if firstError.Some? then
      Err(firstError.value)
    else
      var built := Unwrapped(canteens);
      FreshCanteensAreDistinct(request.canteens, firstRef, built);
      Ok(Validated(acronym.value, built, name.value))
  }

  /**
   * createSchool. It goes on only when the by-name lookup FAILED; any Ok
   * answer, found or not, is "School already exists". Then a validation
   * error is a 400, School.create's error is a 400, and the repository's
   * failure to create is a 500.
   */
  function CreateSchool(byName: SchoolLookup, request: CreateSchoolRequest, firstRef: Ref,
                        created: Result<School, ApiError>): (h: Handled<SchoolView>)
    ensures byName.Ok? ==> h == Handled(Err(BadRequest(AlreadyExists)), None)
    ensures byName.Err? && ValidateRequest(request, firstRef).Err? ==>
              h == Handled(Err(BadRequest(ValidateRequest(request, firstRef).error)), None)
    ensures byName.Err? && ValidateRequest(request, firstRef).Ok? && |request.canteens| == 0 ==>
              h == Handled(Err(BadRequest(TsSchool.NoCanteenError)), None)
    ensures h.stored.Some? ==>
              && byName.Err? && ValidateRequest(request, firstRef).Ok? && |request.canteens| > 0
              && h.stored.value == TsSchool.School(None, ValidateRequest(request, firstRef).value.acronym.value,
                                                   ValidateRequest(request, firstRef).value.canteens,
                                                   ValidateRequest(request, firstRef).value.name.value)
              && (created.Err? ==> h.response == Err(InternalServerError))
              && (created.Ok? ==> h.response == Ok(SchoolViewOf(created.value)))
    ensures h.response.Ok? ==> h.stored.Some?
    ensures h.stored.None? <==> byName.Ok? || ValidateRequest(request, firstRef).Err? || |request.canteens| == 0
  {
    if byName.Ok? then Handled(Err(BadRequest(AlreadyExists)), None)
    else
      match ValidateRequest(request, firstRef)
      case Err(message) => Handled(Err(BadRequest(message)), None)
      case Ok(v) =>
        match TsSchool.Create(v.acronym, v.canteens, v.name)
        case Err(message) => Handled(Err(BadRequest(message)), None)
        case Ok(school) =>
          match created
          case Err(_) => Handled(Err(InternalServerError), Some(school))
          case Ok(stored) => Handled(Ok(SchoolViewOf(stored)), Some(school))
  }

  /** What FirstError picks from `[acronym, ...canteens, name]`, stated position by position. */
  lemma FirstErrorIsOrdered(acronym: Result<NonEmptyString, string>, canteens: seq<Result<Canteen, string>>,
                            name: Result<NonEmptyString, string>, first: Option<string>)
    requires first == FirstError(ValidationErrors(acronym, canteens, name))
    ensures acronym.Err? ==> first == Some(acronym.error)
    ensures acronym.Ok? ==>
              forall k :: 0 <= k < |canteens| && canteens[k].Err? && (forall j :: 0 <= j < k ==> canteens[j].Ok?)
                          ==> first == Some(canteens[k].error)
    ensures acronym.Ok? && (forall k :: 0 <= k < |canteens| ==> canteens[k].Ok?) && name.Err?
            ==> first == Some(name.error)
    ensures first.None? <==> acronym.Ok? && name.Ok? && forall k :: 0 <= k < |canteens| ==> canteens[k].Ok?
  {
    var errors := ValidationErrors(acronym, canteens, name);
    if first.Some? {
      var p :| 0 <= p < |errors| && errors[p] == first && forall j :: 0 <= j < p ==> errors[j].None?;
      if acronym.Ok? {
        forall k | 0 <= k < |canteens| && canteens[k].Err? && (forall j :: 0 <= j < k ==> canteens[j].Ok?)
          ensures first == Some(canteens[k].error)
        {
          assert forall j :: 0 < j < k + 1 ==> errors[j] == ErrorOf(canteens[j - 1]);
          assert errors[k + 1].Some?;
        }
        if (forall k :: 0 <= k < |canteens| ==> canteens[k].Ok?) && name.Err? {
          assert forall j :: 0 < j < |canteens| + 1 ==> errors[j] == ErrorOf(canteens[j - 1]);
        }
      }
    } else {
      forall k | 0 <= k < |canteens| ensures canteens[k].Ok? {
        assert errors[k + 1].None?;
      }
      assert errors[0].None? && errors[|canteens| + 1].None?;
    }
  }

  /** Canteens built with identities firstRef, firstRef + 1, ... are distinct objects. */
  lemma FreshCanteensAreDistinct(requests: seq<CanteenRequest>, firstRef: Ref, built: seq<Canteen>)
    requires |built| == |requests|
    requires forall i :: 0 <= i < |requests| ==> BuildCanteen(requests[i], firstRef + i) == Ok(built[i])
    ensures TsSchool.DistinctObjects(built)
  {
    forall i, j | 0 <= i < j < |built| ensures built[i].ref != built[j].ref {
      assert built[i].ref == firstRef + i && built[j].ref == firstRef + j;
    }
  }

  /**
   * Because the handler goes on only when the by-name lookup fails, a
   * repository that answers normally (no school of that name) makes every
   * creation end in "School already exists".
   */
  lemma NormalLookupBlocksCreation(request: CreateSchoolRequest, firstRef: Ref, created: Result<School, ApiError>)
    ensures CreateSchool(Ok(None), request, firstRef, created) == Handled(Err(BadRequest(AlreadyExists)), None)
  {
  }
}
