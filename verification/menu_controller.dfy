/**
 * The menu handlers (controllers/menu_controller.ts). A menu is addressed
 * within a canteen by its `id`; "today" is the key the caller passes in.
 * Menu.typeFromString, Dish.typeFromString and School.updateCanteen are
 * not part of this model and are parameters.
 */
module MenuController {
  import opened Wrappers
  import opened TsCommon
  import opened ApiErrors
  import TsDish
  import TsMenu
  import TsCanteen
  import TsSchool
  import SchoolController
  import CanteenController

  type School = TsSchool.School
  type Canteen = TsCanteen.Canteen
  type Menu = TsMenu.Menu
  type Dish = TsDish.Dish

  datatype MenusItem = MenusItem(id: Option<string>, menuType: string)
  datatype DishView = DishView(id: string, description: string, dishType: string)
  datatype MenuView = MenuView(id: Option<string>, menuType: string, dishes: seq<DishView>)

  /** The view of a dish: its description doubles as its id, its type by name. */
  function DishViewOf(dish: Dish): (v: DishView)
    ensures v.id == dish.description && v.description == dish.description
    ensures v.dishType in {"meat", "fish", "vegetarian"}
  {
    DishView(dish.description, dish.description, dish.dishType.Name())
  }

  /** The view of a menu: its id, its type by name, its dishes in order. */
  function MenuViewOf(menu: Menu): (v: MenuView)
    ensures v.id == menu.id && v.menuType in {"lunch", "dinner"}
    ensures |v.dishes| == |menu.dishes|
    ensures forall i :: 0 <= i < |v.dishes| ==> v.dishes[i] == DishViewOf(menu.dishes[i])
  {
    MenuView(menu.id, menu.menuType.Name(),
             seq(|menu.dishes|, i requires 0 <= i < |menu.dishes| => DishViewOf(menu.dishes[i])))
  }

  /**
   * availableMenus: the canteen query's error unchanged; no list under
   * today's key is a 404; otherwise one item per menu of today, in order.
   */
  function AvailableMenus(lookup: SchoolController.SchoolLookup, canteenId: string, today: TsCanteen.DayKey)
    : (r: Result<seq<MenusItem>, ApiError>)
    ensures CanteenController.QueryCanteenById(lookup, canteenId).Err? ==>
              r == Err(CanteenController.QueryCanteenById(lookup, canteenId).error)
    ensures CanteenController.QueryCanteenById(lookup, canteenId).Ok? ==>
              var canteen := CanteenController.QueryCanteenById(lookup, canteenId).value.canteen;
              && (r == Err(NotFound) <==> TsCanteen.TodayMenus(canteen, today).None?)
              && (r.Ok? ==> var menus := TsCanteen.TodayMenus(canteen, today).value;
                            |r.value| == |menus|
                            && forall i :: 0 <= i < |menus| ==>
                                 r.value[i] == MenusItem(menus[i].id, menus[i].menuType.Name()))
  {
    match CanteenController.QueryCanteenById(lookup, canteenId)
    case Err(e) => Err(e)
    case Ok(found) =>
      match TsCanteen.TodayMenus(found.canteen, today)
      case None => Err(NotFound)
      case Some(menus) =>
        Ok(seq(|menus|, i requires 0 <= i < |menus| => MenusItem(menus[i].id, menus[i].menuType.Name())))
  }

  // ---------------------------------------------------------------------------
  // queryMenuById and detailedMenuInformation

  datatype MenuFound = MenuFound(school: School, canteen: Canteen, menu: Menu)

  /** The predicate `m.id == menuId`: an undefined id equals no string. */
  predicate HasId(menu: Menu, menuId: string) {
    menu.id == Some(menuId)
  }

  /**
   * queryMenuById: the canteen query's error unchanged; then the first menu,
   * over every day's list in map order, whose id is menuId, or 404.
   */
  function QueryMenuById(lookup: SchoolController.SchoolLookup, canteenId: string, menuId: string)
    : (r: Result<MenuFound, ApiError>)
    ensures CanteenController.QueryCanteenById(lookup, canteenId).Err? ==>
              r == Err(CanteenController.QueryCanteenById(lookup, canteenId).error)
    ensures CanteenController.QueryCanteenById(lookup, canteenId).Ok? ==>
              var found := CanteenController.QueryCanteenById(lookup, canteenId).value;
              var menus := TsCanteen.AllMenus(found.canteen.menusMap);
              && (r == Err(NotFound) <==> forall k :: 0 <= k < |menus| ==> !HasId(menus[k], menuId))
              && (r.Ok? ==> r.value.school == found.school && r.value.canteen == found.canteen
                            && exists k :: 0 <= k < |menus| && menus[k] == r.value.menu && HasId(menus[k], menuId)
                                           && forall j :: 0 <= j < k ==> !HasId(menus[j], menuId))
  {
    match CanteenController.QueryCanteenById(lookup, canteenId)
    case Err(e) => Err(e)
    case Ok(found) =>
      match Find(TsCanteen.AllMenus(found.canteen.menusMap), m => HasId(m, menuId))
      case None => Err(NotFound)
      case Some(menu) => Ok(MenuFound(found.school, found.canteen, menu))
  }

  /** detailedMenuInformation: the query's error unchanged, or the menu's view. */
  function DetailedMenuInformation(lookup: SchoolController.SchoolLookup, canteenId: string, menuId: string)
    : (r: Result<MenuView, ApiError>)
    ensures r.Err? <==> QueryMenuById(lookup, canteenId, menuId).Err?
    ensures r.Err? ==> r.error == QueryMenuById(lookup, canteenId, menuId).error
    ensures r.Ok? ==> r.value == MenuViewOf(QueryMenuById(lookup, canteenId, menuId).value.menu)
                      && r.value.id == Some(menuId)
  {
    match QueryMenuById(lookup, canteenId, menuId)
    case Err(e) => Err(e)
    case Ok(found) => Ok(MenuViewOf(found.menu))
  }

  // ---------------------------------------------------------------------------
  // createMenu

  datatype DishRequest = DishRequest(description: Option<string>, dishType: string)
  datatype CreateMenuRequest = CreateMenuRequest(menuType: string, dishes: seq<DishRequest>)

  /**
   * One requested dish: both the type and the description are validated;
   * the type's error, if any, is the one reported, each as a 400.
   */
  function BuildDish(request: DishRequest, ref: Ref, dishTypeFromString: string -> Result<TsDish.DishType, string>)
    : (r: Result<Dish, ApiError>)
    ensures dishTypeFromString(request.dishType).Err? ==> r == Err(BadRequest(dishTypeFromString(request.dishType).error))
    ensures dishTypeFromString(request.dishType).Ok? && CreateNonEmptyString(request.description).Err? ==>
              r == Err(BadRequest(EmptyStringError))
    ensures r.Ok? <==> dishTypeFromString(request.dishType).Ok? && CreateNonEmptyString(request.description).Ok?
    ensures r.Ok? ==> r.value == TsDish.Dish(ref, request.description.value, dishTypeFromString(request.dishType).value)
  {
    var dishType := dishTypeFromString(request.dishType);
    var description := CreateNonEmptyString(request.description);
    if dishType.Err? then Err(BadRequest(dishType.error))
    else if description.Err? then Err(BadRequest(description.error))
    else Ok(TsDish.Create(ref, description.value, dishType.value))
  }

  /** The requested dishes, the i-th built as a new object with identity firstRef + i. */
  function BuildDishes(requests: seq<DishRequest>, firstRef: Ref,
                       dishTypeFromString: string -> Result<TsDish.DishType, string>): (r: seq<Result<Dish, ApiError>>)
    ensures |r| == |requests|
    ensures forall i :: 0 <= i < |r| ==> r[i] == BuildDish(requests[i], firstRef + i, dishTypeFromString)
  {
    seq(|requests|, i requires 0 <= i < |requests| => BuildDish(requests[i], firstRef + i, dishTypeFromString))
  }

  /** What FirstError picks from `[menuType, ...dishes]`, stated position by position. */
  lemma FirstErrorIsOrdered(typeError: Option<ApiError>, dishes: seq<Result<Dish, ApiError>>, first: Option<ApiError>)
    requires first == FirstError([typeError] + ErrorsOf(dishes))
    ensures typeError.Some? ==> first == typeError
    ensures typeError.None? ==>
              forall k :: 0 <= k < |dishes| && dishes[k].Err? && (forall j :: 0 <= j < k ==> dishes[j].Ok?)
                          ==> first == Some(dishes[k].error)
    ensures first.None? <==> typeError.None? && forall k :: 0 <= k < |dishes| ==> dishes[k].Ok?
  {
    var errors := [typeError] + ErrorsOf(dishes);
    if typeError.Some? {
      FirstErrorAt(errors, 0);
    } else {
      forall k | 0 <= k < |dishes| && dishes[k].Err? && (forall j :: 0 <= j < k ==> dishes[j].Ok?)
        ensures first == Some(dishes[k].error)
      {
        FirstDishError(dishes, k);
      }
    }
    assert forall k :: 0 <= k < |dishes| ==> errors[k + 1] == ErrorOf(dishes[k]);
  }

  /** A dish error preceded only by built dishes is the first error after a valid type. */
  lemma FirstDishError(dishes: seq<Result<Dish, ApiError>>, k: nat)
    requires k < |dishes| && dishes[k].Err?
    requires forall j :: 0 <= j < k ==> dishes[j].Ok?
    ensures FirstError([None] + ErrorsOf(dishes)) == Some(dishes[k].error)
  {
    var errors := [None] + ErrorsOf(dishes);
    assert forall j :: 1 <= j < |errors| ==> errors[j] == ErrorOf(dishes[j - 1]);
    FirstErrorAt(errors, k + 1);
  }

  /** The request's values once the type and every dish have been validated. */
  datatype ValidMenu = ValidMenu(menuType: TsMenu.MenuType, dishes: seq<Dish>)

  /**
   * The validation step of createMenu: the first error in the order
   * type, dishes is the one reported, the type's error unchanged.
   */
  function ValidateMenuRequest(request: CreateMenuRequest, firstRef: Ref,
                               menuTypeFromString: string -> Result<TsMenu.MenuType, ApiError>,
                               dishTypeFromString: string -> Result<TsDish.DishType, string>): (r: Result<ValidMenu, ApiError>)
    ensures menuTypeFromString(request.menuType).Err? ==> r == Err(menuTypeFromString(request.menuType).error)
    ensures r.Ok? <==> && menuTypeFromString(request.menuType).Ok?
                       && forall k :: 0 <= k < |request.dishes| ==>
                            BuildDish(request.dishes[k], firstRef + k, dishTypeFromString).Ok?
    ensures r.Ok? ==>
              && r.value.menuType == menuTypeFromString(request.menuType).value
              && |r.value.dishes| == |request.dishes|
              && (forall i :: 0 <= i < |request.dishes| ==>
                    BuildDish(request.dishes[i], firstRef + i, dishTypeFromString) == Ok(r.value.dishes[i]))
              && (forall i, j :: 0 <= i < j < |r.value.dishes| ==> r.value.dishes[i].ref != r.value.dishes[j].ref)
  {
    var menuType := menuTypeFromString(request.menuType);
    var dishes := BuildDishes(request.dishes, firstRef, dishTypeFromString);
    var firstError := FirstError([ErrorOf(menuType)] + ErrorsOf(dishes));
    FirstErrorIsOrdered(ErrorOf(menuType), dishes, firstError);
    if firstError.Some? then Err(firstError.value)
    else
      var built := seq(|dishes|, i requires 0 <= i < |dishes| => dishes[i].value);
      FreshDishesAreDistinct(request.dishes, firstRef, dishTypeFromString, built);
      Ok(ValidMenu(menuType.value, built))
  }

  /**
   * After a valid type, the error reported is that of the first dish that
   * cannot be built.
   */
  lemma ValidationReportsFirstDishError(request: CreateMenuRequest, firstRef: Ref,
                                        menuTypeFromString: string -> Result<TsMenu.MenuType, ApiError>,
                                        dishTypeFromString: string -> Result<TsDish.DishType, string>, k: nat)
    requires menuTypeFromString(request.menuType).Ok?
    requires k < |request.dishes| && BuildDish(request.dishes[k], firstRef + k, dishTypeFromString).Err?
    requires forall j :: 0 <= j < k ==> BuildDish(request.dishes[j], firstRef + j, dishTypeFromString).Ok?
    ensures ValidateMenuRequest(request, firstRef, menuTypeFromString, dishTypeFromString)
            == Err(BuildDish(request.dishes[k], firstRef + k, dishTypeFromString).error)
  {
    var dishes := BuildDishes(request.dishes, firstRef, dishTypeFromString);
    var firstError := FirstError([None] + ErrorsOf(dishes));
    FirstDishError(dishes, k);
  }

  /** Dishes built with identities firstRef, firstRef + 1, ... are distinct objects. */
  lemma FreshDishesAreDistinct(requests: seq<DishRequest>, firstRef: Ref,
                               dishTypeFromString: string -> Result<TsDish.DishType, string>, built: seq<Dish>)
    requires |built| == |requests|
    requires forall i :: 0 <= i < |requests| ==> BuildDish(requests[i], firstRef + i, dishTypeFromString) == Ok(built[i])
    ensures forall i, j :: 0 <= i < j < |built| ==> built[i].ref != built[j].ref
  {
    forall i, j | 0 <= i < j < |built| ensures built[i].ref != built[j].ref {
      assert built[i].ref == firstRef + i && built[j].ref == firstRef + j;
    }
  }

  /** The menu createMenu builds: a new object after the dishes, and without an id. */
  function NewMenu(valid: ValidMenu, firstRef: Ref): (r: Result<Menu, string>)
    ensures |valid.dishes| == 0 ==> r == Err(TsMenu.NoDishError)
    ensures (forall i, j :: 0 <= i < j < |valid.dishes| ==> valid.dishes[i].ref != valid.dishes[j].ref) ==>
              (r.Ok? <==> |valid.dishes| > 0)
    ensures r.Ok? ==> r.value.id.None? && r.value.dishes == valid.dishes && r.value.menuType == valid.menuType
  {
    TsMenu.Create(firstRef + |valid.dishes|, valid.dishes, valid.menuType)
  }

  /**
   * The school after `canteen.addMenu(menu)`: the canteen object is the one
   * in the school's array, so the school sees the change.
   */
  function SchoolWithMenu(found: CanteenController.CanteenFound, menu: Menu, today: TsCanteen.DayKey): (s: School)
    requires CanteenController.Consistent(found)
    ensures s.oid == found.school.oid && s.acronym == found.school.acronym && s.name == found.school.name
    ensures |s.canteens| == |found.school.canteens|
    ensures s.canteens[found.at] == TsCanteen.AddMenu(found.canteen, menu, today)
    ensures forall k :: 0 <= k < |s.canteens| && k != found.at ==> s.canteens[k] == found.school.canteens[k]
    ensures TsCanteen.TodayMenus(s.canteens[found.at], today) == Some(TsCanteen.MenusOn(found.canteen, today) + [menu])
  {
    found.school.(canteens := found.school.canteens[found.at := TsCanteen.AddMenu(found.canteen, menu, today)])
  }

  /**
   * createMenu: the canteen query's error unchanged; the first validation
   * error (the type's unchanged, a dish's as a 400); Menu.create's error as
   * a 400; then the menu is added under today's key, updateCanteen's error
   * is a 400 and the school itself, which already holds the changed canteen,
   * goes to the repository, whose error is returned unchanged. On success
   * the view is that of the new menu.
   */
  function CreateMenu(lookup: SchoolController.SchoolLookup, canteenId: string, request: CreateMenuRequest,
                      firstRef: Ref, today: TsCanteen.DayKey,
                      menuTypeFromString: string -> Result<TsMenu.MenuType, ApiError>,
                      dishTypeFromString: string -> Result<TsDish.DishType, string>,
                      updateCanteen: (School, Canteen) -> Result<(), string>,
                      updated: Result<School, ApiError>): (h: SchoolController.Handled<MenuView>)
    ensures CanteenController.QueryCanteenById(lookup, canteenId).Err? ==>
              h == SchoolController.Handled(Err(CanteenController.QueryCanteenById(lookup, canteenId).error), None)
    ensures CanteenController.QueryCanteenById(lookup, canteenId).Ok?
            && ValidateMenuRequest(request, firstRef, menuTypeFromString, dishTypeFromString).Err? ==>
              h == SchoolController.Handled(Err(ValidateMenuRequest(request, firstRef, menuTypeFromString, dishTypeFromString).error), None)
    ensures CanteenController.QueryCanteenById(lookup, canteenId).Ok?
            && ValidateMenuRequest(request, firstRef, menuTypeFromString, dishTypeFromString).Ok?
            && |request.dishes| == 0 ==>
              h == SchoolController.Handled(Err(BadRequest(TsMenu.NoDishError)), None)
    ensures CanteenController.QueryCanteenById(lookup, canteenId).Ok?
            && ValidateMenuRequest(request, firstRef, menuTypeFromString, dishTypeFromString).Ok?
            && NewMenu(ValidateMenuRequest(request, firstRef, menuTypeFromString, dishTypeFromString).value, firstRef).Ok? ==>
              var found := CanteenController.QueryCanteenById(lookup, canteenId).value;
              var menu := NewMenu(ValidateMenuRequest(request, firstRef, menuTypeFromString, dishTypeFromString).value, firstRef).value;
              var school := SchoolWithMenu(found, menu, today);
              var local := updateCanteen(school, TsCanteen.AddMenu(found.canteen, menu, today));
              && (local.Err? ==> h == SchoolController.Handled(Err(BadRequest(local.error)), None))
              && (local.Ok? && updated.Err? ==> h == SchoolController.Handled(Err(updated.error), Some(school)))
              && (local.Ok? && updated.Ok? ==> h == SchoolController.Handled(Ok(MenuViewOf(menu)), Some(school)))
    ensures h.stored.Some? ==>
              && CanteenController.QueryCanteenById(lookup, canteenId).Ok?
              && ValidateMenuRequest(request, firstRef, menuTypeFromString, dishTypeFromString).Ok?
              && |request.dishes| > 0
    ensures h.response.Ok? ==> h.stored.Some? && h.response.value.id.None?
  {
    match CanteenController.QueryCanteenById(lookup, canteenId)
    case Err(e) => SchoolController.Handled(Err(e), None)
    case Ok(found) =>
      match ValidateMenuRequest(request, firstRef, menuTypeFromString, dishTypeFromString)
      case Err(e) => SchoolController.Handled(Err(e), None)
      case Ok(valid) =>
        match NewMenu(valid, firstRef)
        case Err(message) => SchoolController.Handled(Err(BadRequest(message)), None)
        case Ok(menu) =>
          var school := SchoolWithMenu(found, menu, today);
          match updateCanteen(school, TsCanteen.AddMenu(found.canteen, menu, today))
          case Err(message) => SchoolController.Handled(Err(BadRequest(message)), None)
          case Ok(_) =>
            match updated
            case Err(e) => SchoolController.Handled(Err(e), Some(school))
            case Ok(_) => SchoolController.Handled(Ok(MenuViewOf(menu)), Some(school))
  }

  /**
   * After a successful createMenu the stored school lists the new menu last
   * among today's menus of the addressed canteen, and the response is that
   * menu's view.
   */
  lemma CreatedMenuIsListedToday(lookup: SchoolController.SchoolLookup, canteenId: string, request: CreateMenuRequest,
                                 firstRef: Ref, today: TsCanteen.DayKey,
                                 menuTypeFromString: string -> Result<TsMenu.MenuType, ApiError>,
                                 dishTypeFromString: string -> Result<TsDish.DishType, string>,
                                 updateCanteen: (School, Canteen) -> Result<(), string>,
                                 updated: Result<School, ApiError>)
    requires CreateMenu(lookup, canteenId, request, firstRef, today, menuTypeFromString, dishTypeFromString,
                        updateCanteen, updated).response.Ok?
    ensures CanteenController.QueryCanteenById(lookup, canteenId).Ok?
    ensures var found := CanteenController.QueryCanteenById(lookup, canteenId).value;
            var h := CreateMenu(lookup, canteenId, request, firstRef, today, menuTypeFromString, dishTypeFromString,
                                updateCanteen, updated);
            && h.stored.Some? && |h.stored.value.canteens| == |found.school.canteens|
            && h.stored.value.canteens[found.at].name == canteenId
            && exists menu: Menu :: && TsCanteen.TodayMenus(h.stored.value.canteens[found.at], today)
                                        == Some(TsCanteen.MenusOn(found.canteen, today) + [menu])
                                    && h.response.value == MenuViewOf(menu)
  {
    var found := CanteenController.QueryCanteenById(lookup, canteenId).value;
    var valid := ValidateMenuRequest(request, firstRef, menuTypeFromString, dishTypeFromString).value;
    var menu := NewMenu(valid, firstRef).value;
    assert TsCanteen.AddMenu(found.canteen, menu, today).name == found.canteen.name;
  }

  /**
   * A menu built by createMenu has no id, and queryMenuById only finds
   * menus whose id is a string: the created menu can never be looked up.
   */
  lemma CreatedMenuIsNotQueryable(lookup: SchoolController.SchoolLookup, canteenId: string, menuId: string, menu: Menu)
    requires menu.id.None?
    ensures QueryMenuById(lookup, canteenId, menuId).Ok? ==> QueryMenuById(lookup, canteenId, menuId).value.menu != menu
  {
  }
}
