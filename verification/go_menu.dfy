/** The Go menu model (model/menu/menu.go): a menu type and its dishes. */
module GoMenu {
  import opened Wrappers
  import opened FieldErrors
  import opened Duplicates
  import GoMenuType
  import GoDish

  /**
   * A menu. The embedded gorm.Model bookkeeping (ID and timestamps) is not
   * part of this model; MenuEntryID is kept because New sets it.
   */
  datatype Menu = Menu(menuEntryId: nat, menuType: int, dishes: seq<GoDish.Dish>)

  const MenuTypeError := FieldError("menutype", "menu", "specified menu type is not valid")
  const NoDishesError := FieldError("dishes", "menu", "menu requires at least one dish to be provided")
  const DuplicatedDishesError := FieldError("dishes", "menu", "menu cannot have duplicated dishes")

  function GrantValidMenuType(menuType: int): (e: Option<FieldError>)
    ensures e.Some? <==> menuType != 0 && menuType != 1
    ensures e.Some? ==> e.value == MenuTypeError
  {
    if !GoMenuType.Validate(menuType) then Some(MenuTypeError) else None
  }

  /** A nil slice and an empty slice both have length zero. */
  function GrantAtLeastOneDish(dishes: seq<GoDish.Dish>): (e: Option<FieldError>)
    ensures e.Some? <==> dishes == []
    ensures e.Some? ==> e.value == NoDishesError
  {
    if |dishes| == 0 then Some(NoDishesError) else None
  }

  function GrantNoDuplicatedDishes(dishes: seq<GoDish.Dish>, equals: (GoDish.Dish, GoDish.Dish) -> bool)
    : (e: Option<FieldError>)
    ensures e.Some? <==> exists i, j :: 0 <= i < j < |dishes| && equals(dishes[i], dishes[j])
    ensures e.Some? ==> e.value == DuplicatedDishesError
  {
    if HasEqualPair(dishes, equals) then Some(DuplicatedDishesError) else None
  }

  /**
   * New: type, then non-emptiness, then duplicates (under Dish.Equals, which
   * is a parameter here); the menu is built before any check and returned
   * even on error.
   */
  function New(menuType: int, dishes: seq<GoDish.Dish>, equals: (GoDish.Dish, GoDish.Dish) -> bool)
    : (r: Checked<Menu>)
    ensures r.value.menuEntryId == 0 && r.value.menuType == menuType && r.value.dishes == dishes
    ensures menuType != 0 && menuType != 1 ==> r.err == Some(MenuTypeError)
    ensures (menuType == 0 || menuType == 1) && |dishes| == 0 ==> r.err == Some(NoDishesError)
    ensures (menuType == 0 || menuType == 1) && |dishes| > 0 ==>
              (r.err == Some(DuplicatedDishesError) <==>
                 exists i, j :: 0 <= i < j < |dishes| && equals(dishes[i], dishes[j]))
    ensures r.err.None? <==> (menuType == 0 || menuType == 1) && |dishes| > 0
                             && forall i, j :: 0 <= i < j < |dishes| ==> !equals(dishes[i], dishes[j])
  {
    var menu := Menu(0, menuType, dishes);
    var typeErr := GrantValidMenuType(menuType);
    if typeErr.Some? then Checked(menu, typeErr)
    else
      var emptyErr := GrantAtLeastOneDish(dishes);
      if emptyErr.Some? then Checked(menu, emptyErr)
      else Checked(menu, GrantNoDuplicatedDishes(dishes, equals))
  }

  /** Dishes: a copy of the menu's dishes, element for element. */
  function Dishes(menu: Menu): (r: seq<GoDish.Dish>)
    ensures |r| == |menu.dishes| && forall i :: 0 <= i < |r| ==> r[i] == menu.dishes[i]
  {
    menu.dishes[..]
  }

  /** The cases of model/menu/menu_test.go, and New(-1, nil) blaming the type. */
  lemma NewMatchesTests(equals: (GoDish.Dish, GoDish.Dish) -> bool)
    ensures New(-1, [GoDish.Dish(0, "Fried Noodles")], equals).err == Some(MenuTypeError)
    ensures New(0, [GoDish.Dish(0, "Fried Noodles")], equals).err.None?
    ensures New(0, [], equals).err == Some(NoDishesError)
    ensures New(-1, [], equals).err == Some(MenuTypeError)
  {
  }

  /** With a reflexive Dish.Equals, a dish listed twice is a duplicate. */
  lemma RepeatedDishRejected(d: GoDish.Dish, equals: (GoDish.Dish, GoDish.Dish) -> bool)
    requires equals(d, d)
    ensures New(GoMenuType.Lunch, [d, d], equals).err == Some(DuplicatedDishesError)
  {
    var dishes := [d, d];
    assert equals(dishes[0], dishes[1]);
  }
}
