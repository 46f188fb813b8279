/**
 * The dish handlers (controllers/dish_controller.ts). A dish is addressed
 * within a menu by its description.
 */
module DishController {
  import opened Wrappers
  import opened TsCommon
  import opened ApiErrors
  import TsDish
  import TsCanteen
  import SchoolController
  import CanteenController
  import MenuController

  type Dish = TsDish.Dish

  datatype DishFound = DishFound(found: MenuController.MenuFound, dish: Dish)

  /** The predicate `d.description == dishId`. */
  predicate HasDescription(dish: Dish, dishId: string) {
    dish.description == dishId
  }

  /**
   * queryDishById: the menu query's error unchanged; then the first dish of
   * the menu whose description is dishId, or 404.
   */
  function QueryDishById(lookup: SchoolController.SchoolLookup, canteenId: string, menuId: string, dishId: string)
    : (r: Result<DishFound, ApiError>)
    ensures MenuController.QueryMenuById(lookup, canteenId, menuId).Err? ==>
              r == Err(MenuController.QueryMenuById(lookup, canteenId, menuId).error)
    ensures MenuController.QueryMenuById(lookup, canteenId, menuId).Ok? ==>
              var menu := MenuController.QueryMenuById(lookup, canteenId, menuId).value.menu;
              && (r == Err(NotFound) <==> forall k :: 0 <= k < |menu.dishes| ==> menu.dishes[k].description != dishId)
              && (r.Ok? ==> r.value.found == MenuController.QueryMenuById(lookup, canteenId, menuId).value
                            && exists k :: 0 <= k < |menu.dishes| && menu.dishes[k] == r.value.dish
                                           && HasDescription(menu.dishes[k], dishId)
                                           && forall j :: 0 <= j < k ==> !HasDescription(menu.dishes[j], dishId))
  {
    match MenuController.QueryMenuById(lookup, canteenId, menuId)
    case Err(e) => Err(e)
    case Ok(found) =>
      match Find(found.menu.dishes, d => HasDescription(d, dishId))
      case None => Err(NotFound)
      case Some(dish) => Ok(DishFound(found, dish))
  }

  /**
   * availableDishes: the menu query's error unchanged; a menu without dishes
   * is a 404; otherwise one view per dish, in order.
   */
  function AvailableDishes(lookup: SchoolController.SchoolLookup, canteenId: string, menuId: string)
    : (r: Result<seq<MenuController.DishView>, ApiError>)
    ensures MenuController.QueryMenuById(lookup, canteenId, menuId).Err? ==>
              r == Err(MenuController.QueryMenuById(lookup, canteenId, menuId).error)
    ensures MenuController.QueryMenuById(lookup, canteenId, menuId).Ok? ==>
              var menu := MenuController.QueryMenuById(lookup, canteenId, menuId).value.menu;
              && (r == Err(NotFound) <==> |menu.dishes| == 0)
              && (r.Ok? ==> |r.value| == |menu.dishes|
                            && forall i :: 0 <= i < |r.value| ==> r.value[i] == MenuController.DishViewOf(menu.dishes[i]))
  {
    match MenuController.QueryMenuById(lookup, canteenId, menuId)
    case Err(e) => Err(e)
    case Ok(found) =>
      if |found.menu.dishes| == 0 then Err(NotFound)
      else Ok(MenuController.MenuViewOf(found.menu).dishes)
  }

  /** detailedDishInformation: the query's error unchanged, or the dish's view. */
  function DetailedDishInformation(lookup: SchoolController.SchoolLookup, canteenId: string, menuId: string, dishId: string)
    : (r: Result<MenuController.DishView, ApiError>)
    ensures r.Err? <==> QueryDishById(lookup, canteenId, menuId, dishId).Err?
    ensures r.Err? ==> r.error == QueryDishById(lookup, canteenId, menuId, dishId).error
    ensures r.Ok? ==> r.value.id == dishId && r.value.description == dishId
                      && r.value == MenuController.DishViewOf(QueryDishById(lookup, canteenId, menuId, dishId).value.dish)
  {
    match QueryDishById(lookup, canteenId, menuId, dishId)
    case Err(e) => Err(e)
    case Ok(found) => Ok(MenuController.DishViewOf(found.dish))
  }

  /**
   * A dish found by its path belongs to that path: it is a dish of a menu
   * with the requested id, stored under some day of a canteen with the
   * requested name, which is one of the canteens of the school looked up.
   */
  lemma FoundDishIsOwned(lookup: SchoolController.SchoolLookup, canteenId: string, menuId: string, dishId: string)
    requires QueryDishById(lookup, canteenId, menuId, dishId).Ok?
    ensures var f := QueryDishById(lookup, canteenId, menuId, dishId).value;
            && lookup == Ok(Some(f.found.school))
            && f.found.canteen in f.found.school.canteens && f.found.canteen.name == canteenId
            && (exists i :: 0 <= i < |f.found.canteen.menusMap| && f.found.menu in f.found.canteen.menusMap[i].1)
            && f.found.menu.id == Some(menuId)
            && f.dish in f.found.menu.dishes && f.dish.description == dishId
  {
    var f := QueryDishById(lookup, canteenId, menuId, dishId).value;
    var c := CanteenController.QueryCanteenById(lookup, canteenId).value;
    assert c.school.canteens[c.at] == c.canteen;
    var menus := TsCanteen.AllMenus(c.canteen.menusMap);
    var m :| 0 <= m < |menus| && menus[m] == f.found.menu && MenuController.HasId(menus[m], menuId);
    assert f.found.menu in menus;
    var d :| 0 <= d < |f.found.menu.dishes| && f.found.menu.dishes[d] == f.dish && HasDescription(f.dish, dishId);
  }
}
