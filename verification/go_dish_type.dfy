/** The Go dish type enumeration (model/dish/dishtype.go): an int with four named values. */
module GoDishType {

  const Meat: int := 0
  const Fish: int := 1
  const Vegetarian: int := 2
  const Diet: int := 3

  /** Whether an integer names one of the four dish types. */
  predicate Validate(dishType: int) {
    dishType >= 0 && dishType <= 3
  }

  /** The stringer: the lower-case name of a valid type, "nil" for every other integer. */
  function Name(dishType: int): (r: string)
    ensures r != "nil" <==> Validate(dishType)
    ensures r in {"meat", "fish", "vegetarian", "diet", "nil"}
  {
    if dishType == Meat then "meat"
    else if dishType == Fish then "fish"
    else if dishType == Vegetarian then "vegetarian"
    else if dishType == Diet then "diet"
    else "nil"
  }

  /** Distinct valid types have distinct names, so the name identifies the type. */
  lemma NameInjective(a: int, b: int)
    requires Validate(a) && Validate(b) && Name(a) == Name(b)
    ensures a == b
  {
  }

  /** The names the enumeration's tests expect (model/dish/dishtype_test.go). */
  lemma NamesOfValidTypes()
    ensures Name(Meat) == "meat" && Name(Fish) == "fish"
    ensures Name(Vegetarian) == "vegetarian" && Name(Diet) == "diet"
    ensures Name(-1) == "nil" && Name(4) == "nil"
    ensures !Validate(-1) && !Validate(4)
  {
  }
}
