/** The Go canteen model (model/canteen/canteen.go): a name and a date-keyed menu map. */
module GoCanteen {
  import opened Wrappers
  import opened Text
  import opened FieldErrors
  import GoMenu

  /**
   * A canteen. The map keys are time.Time values in the source; here they are
   * abstract instants. No operation of this model reads or writes the map.
   */
  datatype Canteen = Canteen(name: string, menus: map<int, seq<GoMenu.Menu>>)

  const NameError := FieldError("name", "canteen", "")

  function GrantNameIsNotEmpty(name: string): (e: Option<FieldError>)
    ensures e.Some? <==> AllSpace(name, GoIsSpace)
    ensures e.Some? ==> e.value == NameError
  {
    if TrimsToEmpty(name, GoIsSpace) then Some(NameError) else None
  }

  /**
   * New: the name is the only validated field; the canteen keeps the name
   * untrimmed and starts with no menus.
   */
  function New(name: string): (r: Checked<Canteen>)
    ensures r.value.name == name && r.value.menus == map[]
    ensures r.err.Some? <==> AllSpace(name, GoIsSpace)
    ensures r.err.Some? ==> r.err.value == NameError
  {
    Checked(Canteen(name, map[]), GrantNameIsNotEmpty(name))
  }

  /** The cases of model/canteen/canteen_test.go. */
  lemma NewMatchesTests()
    ensures New("").err == Some(NameError)
    ensures New(" ").err == Some(NameError)
    ensures New("Cantina do H").err.None?
  {
    assert !GoIsSpace("Cantina do H"[0]);
  }
}
