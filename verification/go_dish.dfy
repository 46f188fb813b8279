/** The Go dish model (model/dish/dish.go): a dish type and a description. */
module GoDish {
  import opened Wrappers
  import opened Text
  import opened FieldErrors
  import GoDishType

  datatype Dish = Dish(dishType: int, description: string)

  const DishTypeError := FieldError("dishtype", "dish", "")
  const DescriptionError := FieldError("description", "dish", "")

  /** grantValidDescription: the description must not be empty after trimming. */
  function GrantValidDescription(description: string): (e: Option<FieldError>)
    ensures e.Some? <==> AllSpace(description, GoIsSpace)
    ensures e.Some? ==> e.value == DescriptionError
  {
    if TrimsToEmpty(description, GoIsSpace) then Some(DescriptionError) else None
  }

  /** grantValidDishType: the type must be one of the four dish types. */
  function GrantValidDishType(dishType: int): (e: Option<FieldError>)
    ensures e.Some? <==> !(0 <= dishType <= 3)
    ensures e.Some? ==> e.value == DishTypeError
  {
    if !GoDishType.Validate(dishType) then Some(DishTypeError) else None
  }

  /**
   * New: the dish always carries the given type and the untrimmed
   * description; the type is checked first, then the description.
   */
  function New(dishType: int, description: string): (r: Checked<Dish>)
    ensures r.value.dishType == dishType && r.value.description == description
    ensures !(0 <= dishType <= 3) ==> r.err == Some(DishTypeError)
    ensures 0 <= dishType <= 3 && AllSpace(description, GoIsSpace) ==> r.err == Some(DescriptionError)
    ensures r.err.None? <==> 0 <= dishType <= 3 && exists i :: 0 <= i < |description| && !GoIsSpace(description[i])
  {
    var dish := Dish(dishType, description);
    var err := GrantValidDishType(dishType);
    if err.Some? then Checked(dish, err)
    else Checked(dish, GrantValidDescription(description))
  }

  /** The cases of model/dish/dish_test.go, and New(-1, "") blaming the type. */
  lemma NewMatchesTests()
    ensures New(-1, "Fried Noodles").err == Some(DishTypeError)
    ensures New(0, "Fried Noodles").err.None?
    ensures New(0, "").err == Some(DescriptionError)
    ensures New(0, " ").err == Some(DescriptionError)
    ensures New(-1, "").err == Some(DishTypeError)
  {
    assert !GoIsSpace("Fried Noodles"[0]);
  }
}
