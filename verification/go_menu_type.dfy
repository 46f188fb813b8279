/**
 * The Go menu type enumeration (model/menu/menutype.go): lunch or dinner,
 * its stringer, its validation, and the parser its tests call.
 */
module GoMenuType {

  const Lunch: int := 0
  const Dinner: int := 1

  /** Whether an integer names a menu type. */
  predicate Validate(menuType: int) {
    menuType == 0 || menuType == 1
  }

  /** The stringer: "lunch", "dinner", or "nil" for any other integer. */
  function Name(menuType: int): (r: string)
    ensures r == "nil" <==> !Validate(menuType)
    ensures r in {"lunch", "dinner", "nil"}
  {
    if menuType == Lunch then "lunch"
    else if menuType == Dinner then "dinner"
    else "nil"
  }

  /**
   * The parser the tests exercise (model/menu/menutype_test.go): the type
   * a name denotes, or the sentinel -1 for an unrecognised string. No source
   * file declares it; this table is the smallest one that agrees with the
   * values the tests pin.
   */
  function Parse(s: string): (r: int)
    ensures r == -1 || Validate(r)
  {
    if s == "lunch" then Lunch
    else if s == "dinner" then Dinner
    else -1
  }

  /** Parsing the name of a valid type gives the type back. */
  lemma ParseName(menuType: int)
    requires Validate(menuType)
    ensures Parse(Name(menuType)) == menuType
  {
  }

  /** A recognised string is exactly the name of what it parses to; "nil" is not recognised. */
  lemma NameParse(s: string)
    ensures Parse(s) != -1 <==> s == "lunch" || s == "dinner"
    ensures Parse(s) != -1 ==> Name(Parse(s)) == s
    ensures Parse("nil") == -1
  {
  }

  /** The values the tests pin down. */
  lemma ParseMatchesTests()
    ensures Parse("lunch") == 0 && Parse("dinner") == 1 && Parse("menu") == -1
    ensures Validate(0) && Validate(1) && !Validate(-1) && !Validate(2)
  {
  }
}
