/**
 * The canteen handlers (controllers/canteen_controller.ts). A canteen is
 * addressed by its name within a school; the repository is abstracted as
 * in SchoolController.
 */
module CanteenController {
  import opened Wrappers
  import opened TsCommon
  import opened ApiErrors
  import TsGeoLocation
  import TsCanteen
  import TsSchool
  import SchoolController

  type School = TsSchool.School
  type Canteen = TsCanteen.Canteen

  /**
   * What queryCanteenById returns: the school and its canteen. `at` is the
   * canteen's position in the school's array, so that a change made to the
   * canteen object is a change to the school as well.
   */
  datatype CanteenFound = CanteenFound(school: School, canteen: Canteen, at: nat)

  /** A found canteen is the one at its position in its school. */
  predicate Consistent(f: CanteenFound) {
    f.at < |f.school.canteens| && f.school.canteens[f.at] == f.canteen
  }

  /** The position of the first canteen called `name`, if any. */
  function IndexOfName(canteens: seq<Canteen>, name: string): (r: Option<nat>)
    ensures r.None? <==> forall k :: 0 <= k < |canteens| ==> canteens[k].name != name
    ensures r.Some? ==> r.value < |canteens| && canteens[r.value].name == name
                        && forall j :: 0 <= j < r.value ==> canteens[j].name != name
  {
    if |canteens| == 0 then None
    else if canteens[0].name == name then Some(0)
    else
      match IndexOfName(canteens[1..], name)
      case None => None
      case Some(k) => Some(k + 1)
  }

  /**
   * queryCanteenById: the school lookup's error unchanged, then the FIRST
   * canteen whose name equals the id, or 404.
   */
  function QueryCanteenById(lookup: SchoolController.SchoolLookup, canteenId: string): (r: Result<CanteenFound, ApiError>)
    ensures SchoolController.QuerySchoolById(lookup).Err? ==> r == Err(SchoolController.QuerySchoolById(lookup).error)
    ensures SchoolController.QuerySchoolById(lookup).Ok? ==>
              var school := SchoolController.QuerySchoolById(lookup).value;
              && (r == Err(NotFound) <==> forall k :: 0 <= k < |school.canteens| ==> school.canteens[k].name != canteenId)
              && (r.Ok? ==> r.value.school == school && r.value.canteen.name == canteenId && Consistent(r.value)
                            && forall j :: 0 <= j < r.value.at ==> school.canteens[j].name != canteenId)
  {
    match SchoolController.QuerySchoolById(lookup)
    case Err(e) => Err(e)
    case Ok(school) =>
      match IndexOfName(school.canteens, canteenId)
      case None => Err(NotFound)
      case Some(k) => Ok(CanteenFound(school, school.canteens[k], k))
  }

  datatype CanteensItem = CanteensItem(id: string, name: string)

  /**
   * availableCanteens: the school lookup's error unchanged, or one item per
   * canteen, in order, with the name as id. An empty list is not an error.
   */
  function AvailableCanteens(lookup: SchoolController.SchoolLookup): (r: Result<seq<CanteensItem>, ApiError>)
    ensures r.Err? <==> SchoolController.QuerySchoolById(lookup).Err?
    ensures r.Err? ==> r.error == SchoolController.QuerySchoolById(lookup).error
    ensures r.Ok? ==>
              var school := SchoolController.QuerySchoolById(lookup).value;
              |r.value| == |school.canteens|
              && forall i :: 0 <= i < |r.value| ==> r.value[i] == CanteensItem(school.canteens[i].name, school.canteens[i].name)
  {
    match SchoolController.QuerySchoolById(lookup)
    case Err(e) => Err(e)
    case Ok(school) =>
      Ok(seq(|school.canteens|, i requires 0 <= i < |school.canteens| =>
               CanteensItem(school.canteens[i].name, school.canteens[i].name)))
  }

  /** detailedCanteenInformation: the query's error unchanged, or the canteen's view. */
  function DetailedCanteenInformation(lookup: SchoolController.SchoolLookup, canteenId: string)
    : (r: Result<SchoolController.CanteenView, ApiError>)
    ensures r.Err? <==> QueryCanteenById(lookup, canteenId).Err?
    ensures r.Err? ==> r.error == QueryCanteenById(lookup, canteenId).error
    ensures r.Ok? ==> r.value.id == canteenId && r.value.name == canteenId
                      && r.value.location == QueryCanteenById(lookup, canteenId).value.canteen.location
  {
    match QueryCanteenById(lookup, canteenId)
    case Err(e) => Err(e)
    case Ok(found) => Ok(SchoolController.CanteenViews([found.canteen])[0])
  }

  /**
   * createCanteen: the school lookup's error unchanged; then the location's
   * error, else the name's, as a 400; then addCanteen's error as a 400; then
   * the repository's failure to update as a 500. On success the view is that
   * of the first canteen of the updated school with the new canteen's name,
   * or of nothing (every field undefined) when there is none.
   */
  function CreateCanteen(lookup: SchoolController.SchoolLookup, request: SchoolController.CanteenRequest, ref: Ref,
                         updated: Result<School, ApiError>): (h: SchoolController.Handled<Option<SchoolController.CanteenView>>)
    ensures SchoolController.QuerySchoolById(lookup).Err? ==>
              h == SchoolController.Handled(Err(SchoolController.QuerySchoolById(lookup).error), None)
    ensures SchoolController.QuerySchoolById(lookup).Ok? && SchoolController.BuildCanteen(request, ref).Err? ==>
              h == SchoolController.Handled(Err(BadRequest(SchoolController.BuildCanteen(request, ref).error)), None)
    ensures h.stored.Some? ==>
              && SchoolController.QuerySchoolById(lookup).Ok?
              && SchoolController.BuildCanteen(request, ref).Ok?
              && var school := SchoolController.QuerySchoolById(lookup).value;
                 var canteen := SchoolController.BuildCanteen(request, ref).value;
                 && TsSchool.AddCanteen(school, canteen).result.Ok?
                 && h.stored.value == school.(canteens := school.canteens + [canteen])
                 && (updated.Err? ==> h.response == Err(InternalServerError))
                 && (updated.Ok? ==> h.response.Ok?)
                 && (updated.Ok? ==>
                       (h.response.value.None? <==> forall k :: 0 <= k < |updated.value.canteens| ==>
                                                      updated.value.canteens[k].name != canteen.name))
                 && (updated.Ok? && h.response.value.Some? ==>
                       exists k :: && 0 <= k < |updated.value.canteens|
                                   && updated.value.canteens[k].name == canteen.name
                                   && (forall j :: 0 <= j < k ==> updated.value.canteens[j].name != canteen.name)
                                   && h.response.value.value
                                      == SchoolController.CanteenView(canteen.name, updated.value.canteens[k].location, canteen.name))
    ensures h.response.Ok? ==> h.stored.Some?
    ensures SchoolController.QuerySchoolById(lookup).Ok? && SchoolController.BuildCanteen(request, ref).Ok?
            && TsSchool.AddCanteen(SchoolController.QuerySchoolById(lookup).value, SchoolController.BuildCanteen(request, ref).value).result.Err?
            ==> h == SchoolController.Handled(Err(BadRequest(TsSchool.AddDuplicateError)), None)
  {
    match SchoolController.QuerySchoolById(lookup)
    case Err(e) => SchoolController.Handled(Err(e), None)
    case Ok(school) =>
      match SchoolController.BuildCanteen(request, ref)
      case Err(message) => SchoolController.Handled(Err(BadRequest(message)), None)
      case Ok(canteen) =>
        var added := TsSchool.AddCanteen(school, canteen);
        if added.result.Err? then SchoolController.Handled(Err(BadRequest(added.result.error)), None)
        else
          match updated
          case Err(_) => SchoolController.Handled(Err(InternalServerError), Some(added.school))
          case Ok(updatedSchool) =>
            match IndexOfName(updatedSchool.canteens, canteen.name)
            case None => SchoolController.Handled(Ok(None), Some(added.school))
            case Some(k) =>
              SchoolController.Handled(Ok(Some(SchoolController.CanteenViews([updatedSchool.canteens[k]])[0])), Some(added.school))
  }

  /**
   * Since the new canteen is a new object, adding it to a school whose
   * canteens are distinct objects with other identities never fails, even
   * when a canteen of the same name already exists.
   */
  lemma FreshCanteenIsAdded(lookup: SchoolController.SchoolLookup, request: SchoolController.CanteenRequest,
                            ref: Ref, updated: Result<School, ApiError>)
    requires SchoolController.QuerySchoolById(lookup).Ok?
    requires SchoolController.BuildCanteen(request, ref).Ok?
    requires TsSchool.DistinctObjects(SchoolController.QuerySchoolById(lookup).value.canteens)
    requires forall k :: 0 <= k < |SchoolController.QuerySchoolById(lookup).value.canteens| ==>
               SchoolController.QuerySchoolById(lookup).value.canteens[k].ref != ref
    ensures CreateCanteen(lookup, request, ref, updated).stored.Some?
  {
    TsSchool.AddCanteenGrowsByOne(SchoolController.QuerySchoolById(lookup).value, SchoolController.BuildCanteen(request, ref).value);
  }
}
