# iped domain core in Dafny

A model of the domain core of **iped**, the backend that publishes canteen
menus for schools: schools offer canteens, canteens offer daily menus, and
menus list dishes. The repository holds the core twice.

- **Go variant.** The validated constructors of School, Canteen, Menu, Dish,
  the two type enumerations and GeographicalLocation. The older Dish in
  `src/model` has the same constructor and checks as the current one, so
  `GoDish` models both. Each constructor returns the value it built together
  with the first `FieldError`, or nil. Both results are kept, as
  `Checked<T>(value, err)`.
- **TypeScript variant.** The models `NonEmptyString`, `HasDuplicates`,
  GeographicalLocation, Canteen, School and Menu, and the four request
  handlers for schools, canteens, menus and dishes. These return
  `Result<T, E>`.

How the model maps the source:

- Whitespace is modelled once for each runtime. Go uses `unicode.IsSpace`;
  JavaScript's `trim` uses a set that differs from Go's in U+0085 and
  U+FEFF. Trimming is generic over that set.
- Go strings are UTF-8 bytes. The model encodes them only where the source
  indexes bytes.
- JavaScript object identity (`===`, which `HasDuplicates` uses) is an
  explicit `ref` on every object the handlers create. Fresh objects take
  fresh identities `firstRef`, `firstRef + 1`, …
- The handlers' repository calls are replaced by the answer the repository
  gave, passed in as a parameter. Each write is recorded as the school the
  handler passed to `create` or `update`, in `Handled(response, stored)`.
  So "a failed request persists nothing" can be stated.
- The current day is a parameter (`today`). Functions the handlers call
  that are declared in no core file are parameters:
  - `Menu.typeFromString`;
  - `Dish.typeFromString`;
  - `School.updateCanteen`.
- Four behaviours the model keeps as the code has them:
  - The Go location bounds latitude by ±180 and longitude by ±90. The
    TypeScript location bounds both by ±90.
  - Duplicate detection uses the entities' `Equals` (Go) or object
    identity (TypeScript), not a case-insensitive name match.
  - `addMenu` never rejects a second menu of the same type on a day.
  - `createSchool` reports "School already exists" whenever the by-name
    lookup succeeds, even when it finds nothing.
- Two defects are modelled twice, as written and corrected (see
  "## Findings"). `GoSchool.New` uses the byte-wise acronym check as written;
  `GoSchool.NewIntended` uses the corrected one. The menu handlers use the
  corrected, day-keyed `TsCanteen.AddMenu` and `TsCanteen.TodayMenus`;
  `TsCanteen.AddMenuAsWritten` keeps the code's keying.

## Model

| member | source | states |
|---|---|---|
| Text.WhitespaceSetsDiffer | model/school/school.go:96 | Go's whitespace set and JavaScript's trim set differ in exactly U+0085 and U+FEFF |
| Text.TrimsToEmpty | model/school/school.go:96 | `len(strings.TrimSpace(s)) == 0` holds exactly when every character of s is whitespace |
| Text.TrimEmptyIffAllSpace | model/canteen/canteen.go:39 | trimming leaves nothing if and only if the string is all whitespace, in both directions |
| Text.TrimIdempotent | model/dish/dish.go:39 | trimming a trimmed string changes nothing |
| Text.Utf8Char | model/school/school.go:109-114 | a character's UTF-8 encoding has 1 to 4 bytes; it has one byte exactly for ASCII, and every later byte is a continuation byte 0x80..0xBF |
| Text.AsciiUtf8 | model/school/school.go:109-114 | an ASCII string is encoded byte for byte, so byte indexing and character indexing coincide |
| Duplicates.ScanUnique | model/school/school.go:158-184 | the nested early-exit loop reports unique exactly when no two positions i < j hold related elements |
| Duplicates.AppendPair | model/school/school.go:75-89 | appending x creates a duplicate pair iff one existed or x relates to an earlier element |
| Duplicates.ShortHasNoPair | model/menu/menu.go:80-106 | lists of fewer than two elements never contain a duplicate pair |
| GoDishType.Name | model/dish/dishtype.go:17-31 | the stringer returns a name other than "nil" exactly for the four valid types |
| GoDishType.NameInjective | model/dish/dishtype.go:17-36 | two valid types with the same name are the same type |
| GoDishType.NamesOfValidTypes | model/dish/dishtype_test.go:5-93 | meat, fish, vegetarian, diet are 0..3 by name; -1 and 4 are invalid and named "nil" |
| GoMenuType.Name | model/menu/menutype.go:15-25 | the stringer returns "nil" exactly for integers other than lunch (0) and dinner (1) |
| GoMenuType.Parse | model/menu/menutype_test.go:67-87 | the parser returns a valid type or the sentinel -1 (its table beyond the tested values is the model's choice, see "## Left out") |
| GoMenuType.ParseName | model/menu/menutype_test.go:67-87 | parsing the name of a valid type gives the type back |
| GoMenuType.NameParse | model/menu/menutype_test.go:67-87 | a string is recognised iff it is "lunch" or "dinner", and then it is the name of what it parses to |
| GoMenuType.ParseMatchesTests | model/menu/menutype_test.go:5-87 | the values the enumeration's tests expect |
| GoDish.GrantValidDescription | model/dish/dish.go:35-44 | the description error is raised iff the description is all whitespace |
| GoDish.GrantValidDishType | model/dish/dish.go:48-57 | the dishtype error is raised iff the type lies outside 0..3 |
| GoDish.New | model/dish/dish.go:18-31 | the dish carries both inputs; the type is checked before the description; no error iff the type is valid and the description has a non-space character |
| GoDish.NewMatchesTests | model/dish/dish_test.go:8-58 | the test cases, and an invalid type blamed ahead of an empty description |
| GoMenu.GrantValidMenuType | model/menu/menu.go:54-63 | the menutype error, with its explanation, is raised iff the type is not 0 or 1 |
| GoMenu.GrantAtLeastOneDish | model/menu/menu.go:67-76 | the dishes error is raised iff the list is nil or empty |
| GoMenu.GrantNoDuplicatedDishes | model/menu/menu.go:80-106 | the duplicate error is raised iff two positions hold dishes Equals relates |
| GoMenu.New | model/menu/menu.go:20-39 | type, then emptiness, then duplicates; no error iff all three hold; the menu carries the inputs and entry id 0 |
| GoMenu.Dishes | model/menu/menu.go:44-50 | the copy has the same dishes in the same order |
| GoMenu.NewMatchesTests | model/menu/menu_test.go:11-75 | the test cases, and an invalid type blamed ahead of a missing dish list |
| GoMenu.RepeatedDishRejected | model/menu/menu.go:80-106 | with a reflexive Equals, a dish listed twice is rejected as a duplicate |
| GoGeoLocation.GrantLatitudeNotLower | model/geographical_location/geographical_location.go:42-52 | the error is raised iff latitude < -180 |
| GoGeoLocation.GrantLatitudeNotHigher | model/geographical_location/geographical_location.go:54-64 | the error is raised iff latitude > 180 |
| GoGeoLocation.GrantLongitudeNotLower | model/geographical_location/geographical_location.go:66-76 | the error is raised iff longitude < -90 |
| GoGeoLocation.GrantLongitudeNotHigher | model/geographical_location/geographical_location.go:78-88 | the error is raised iff longitude > 90 |
| GoGeoLocation.New | model/geographical_location/geographical_location.go:15-40 | valid iff latitude is in [-180, 180] and longitude in [-90, 90], bounds inclusive; a latitude error always comes before a longitude error |
| GoGeoLocation.NewMatchesTests | model/geographicallocation/geographicallocation_test.go:7-73 | the four boundary tests blame the expected field |
| GoCanteen.GrantNameIsNotEmpty | model/canteen/canteen.go:35-45 | the name error is raised iff the name is all whitespace |
| GoCanteen.New | model/canteen/canteen.go:21-32 | the canteen keeps the untrimmed name and starts with no menus; error iff the name is blank |
| GoCanteen.NewMatchesTests | model/canteen/canteen_test.go:9-39 | "" and " " are rejected, "Cantina do H" is accepted |
| GoSchool.GrantAcronymIsNotEmpty | model/school/school.go:92-102 | the acronym error is raised iff the acronym is all whitespace |
| GoSchool.GrantNoSpacesAsWritten | model/school/school.go:105-127 | the byte loop reports an error iff some UTF-8 byte of the acronym, read as a code point, is whitespace |
| GoSchool.GrantAcronymHasNoSpaces | model/school/school.go:104-127 | the corrected check: an error iff some character of the acronym is whitespace |
| GoSchool.AsciiChecksAgree | model/school/school.go:105-127 | on ASCII acronyms the byte check and the character check agree |
| GoSchool.ByteCheckRejectsAccentedLetter | model/school/school.go:113-114 | the byte check rejects "à", which contains no whitespace |
| GoSchool.ByteCheckAcceptsIdeographicSpace | model/school/school.go:113-114 | the byte check accepts "A　B", which contains an ideographic space |
| GoSchool.GrantNameIsNotEmpty | model/school/school.go:130-140 | the name error is raised iff the name is all whitespace |
| GoSchool.GrantAtLeastOneCanteen | model/school/school.go:144-154 | the canteens error is raised iff the list is nil or empty |
| GoSchool.GrantNoDuplicatedCanteens | model/school/school.go:158-184 | the canteens error is raised iff two positions hold canteens Equals relates |
| GoSchool.New | model/school/school.go:23-58 | each of the acronym, name and canteens errors is raised iff its check is the first to fail, the acronym's whitespace check being the byte loop the code calls; no error iff the school satisfies the Valid invariant |
| GoSchool.NewIntended | model/school/school.go:23-58 | the constructor with the corrected acronym check: each error is raised iff its check is the first to fail |
| GoSchool.NewAgreesOnAscii | model/school/school.go:33 | on an ASCII acronym the constructor as written and the corrected one return the same school and error |
| GoSchool.NewRejectsAccentedAcronym | model/school/school.go:33 | the constructor as written rejects the acronym "à" with the acronym error; the corrected one accepts it |
| GoSchool.Canteens | model/school/school.go:63-71 | the copy has the same canteens in the same order |
| GoSchool.AddCanteen | model/school/school.go:75-89 | the canteen is committed iff the extended list has no duplicates; on failure the school is unchanged |
| GoSchool.AddCanteenPreservesValid | model/school/school.go:73-89 | AddCanteen keeps a valid school valid; it succeeds iff the new canteen equals none already present; the count grows by one exactly on success |
| GoSchool.NewMatchesAcronymTests | model/school/school_test.go:11-61 | "", " " and "IS EP" are rejected on the acronym |
| GoSchool.NewMatchesNameTests | model/school/school_test.go:62-95 | "" and " " are rejected on the name |
| GoSchool.NewMatchesCanteenTests | model/school/school_test.go:96-161 | no canteens and a repeated canteen are rejected on canteens; the valid school has no error |
| TsCommon.CreateNonEmptyString | models/common.ts:8-14 | Ok iff the value is defined and has a non-whitespace character; Ok keeps the value untrimmed; every failure is "string cannot be empty" |
| TsCommon.NonEmptyStringExamples | models/common.ts:8-14 | undefined, "" and " \t" fail; " ISEP " succeeds and keeps its spaces |
| TsCommon.IndexOf | models/common.ts:18 | indexOf returns the first position holding x, or -1 iff x is absent |
| TsCommon.LaterOccurrences | models/common.ts:18 | the filter keeps some element iff two positions hold the same value |
| TsCommon.HasDuplicates | models/common.ts:17-19 | true iff two distinct positions hold `===` values |
| TsCommon.Find | controllers/canteen_controller.ts:158 | find returns the first element satisfying the predicate, or nothing iff none does |
| TsCommon.FirstError | controllers/school_controller.ts:89-91 | the first error of the list in order, or none iff every result is Ok |
| TsCommon.FirstErrorAt | controllers/school_controller.ts:89-98 | an error preceded only by successes is the one reported |
| TsGeoLocation.Create | models/geographical_location.ts:14-25 | Ok iff both coordinates are in [-90, 90]; the latitude message comes first, then the longitude message |
| TsGeoLocation.LongitudeMessageOverstatesRange | models/geographical_location.ts:20-21 | longitude 120, inside the range the message names, is rejected with that message |
| TsGeoLocation.VariantsCompared | models/geographical_location.ts:18-21 | every location TypeScript accepts, Go accepts too; latitudes in (90, 180] only Go accepts |
| TsDish.FromOrdinal | models/dish.ts:14-18 | the enum has a member exactly for 0, 1 and 2 |
| TsDish.Create | controllers/menu_controller.ts:105-107 | a new dish object holding the description and the type |
| TsDish.AgreesWithGo | models/dish.ts:14-18 | each TypeScript dish type has the Go type of the same number and name; Go's diet has no TypeScript counterpart |
| TsMenu.Create | models/menu.ts:14-22 | emptiness first, then identity duplicates; Ok iff the list is non-empty and no object repeats; the menu has no id |
| TsMenu.MenuTypeMembers | models/menu.ts:25-28 | lunch = 0 and dinner = 1, named and parsed as the Go enumeration names and parses them |
| TsMenu.EqualContentIsNotDuplicate | models/menu.ts:17 | two distinct dish objects with equal fields are not duplicates |
| TsCanteen.Get | models/canteen.ts:34 | the map yields nothing iff the key is absent, else the value stored under the key |
| TsCanteen.Set | models/canteen.ts:55 | set keeps every existing key in place and appends an absent key at the end |
| TsCanteen.SetGetSame | models/canteen.ts:55 | after set, the key maps to the new value |
| TsCanteen.SetGetOther | models/canteen.ts:55 | after set, every other key maps to what it did before |
| TsCanteen.SetKeysUnique | models/canteen.ts:55 | set keeps the map's keys unique |
| TsCanteen.AllMenus | controllers/menu_controller.ts:213 | the flattened list is the first day's list followed by the flattening of the rest, so it keeps map order and multiplicity; it holds exactly the menus of all days |
| TsCanteen.AllMenusAppend | controllers/menu_controller.ts:213 | a list appended to the map, as Map.set appends a new key, comes after every earlier list in the flattening |
| TsCanteen.Create | models/canteen.ts:64-66 | a new canteen with the given location, the unwrapped name and an empty map |
| TsCanteen.TodayMenus | models/canteen.ts:30-41 | None iff no list is stored under today's key, else the stored list |
| TsCanteen.AddMenu | models/canteen.ts:43-56 | today's list becomes the previous list (or none) followed by the menu; other days and the canteen's identity, location and name are unchanged; keys stay unique |
| TsCanteen.SameTypeTwiceIsKept | models/canteen.ts:43-56 | two menus of the same type added the same day are both kept, in order |
| TsCanteen.AddMenuAsWritten | models/canteen.ts:43-56 | as written, a menu always goes into a new entry under a fresh Date object |
| TsCanteen.SetAppendsAbsentKey | models/canteen.ts:55 | setting an absent key appends exactly one entry |
| TsCanteen.AsWrittenMenuIsNeverFound | models/canteen.ts:30-56 | as written, todayMenus never finds a menu addMenu stored, because each builds its own Date key |
| TsCanteen.AddThenTodayMenus | models/canteen.ts:30-56 | one menu added, then today's menus read the same day: as written None, keyed by day the menu |
| TsCanteen.Equals | models/canteen.ts:58-62 | equals holds iff the object is truthy and has the same name or an equal location |
| TsCanteen.EqualsIsSymmetric | models/canteen.ts:58-62 | equals is reflexive and symmetric and never holds of null |
| TsSchool.Id | models/school.ts:12-14 | the id is the stored oid when it is a non-empty string, and "undefined" otherwise |
| TsSchool.Create | models/school.ts:47-59 | Ok iff there is a canteen and no canteen object repeats; the school has no id and keeps the unwrapped strings |
| TsSchool.AddCanteen | models/school.ts:35-45 | the canteen is appended iff the extended list repeats no object; on failure the school is unchanged |
| TsSchool.AddCanteenGrowsByOne | models/school.ts:35-45 | on distinct canteens, addCanteen succeeds iff the new object is not present; distinctness is preserved; the count grows by one exactly on success |
| TsSchool.SameNameIsNotDuplicate | models/school.ts:54 | two canteen objects with the same name, which equals relates, still make a valid school |
| SchoolController.QuerySchoolById | controllers/school_controller.ts:181-202 | a repository failure is 500, no school is 404, a found school is returned |
| SchoolController.CanteenViews | controllers/school_controller.ts:160-168 | one view per canteen, in order, with the name as id |
| SchoolController.SchoolViewOf | controllers/school_controller.ts:170-177 | the view carries the school's id, acronym, name and its canteens' views |
| SchoolController.AvailableSchools | controllers/school_controller.ts:30-55 | a repository failure is 500, no school is 404, otherwise one item per school in order |
| SchoolController.DetailedSchoolInformation | controllers/school_controller.ts:149-179 | the lookup's error unchanged, or the found school's view |
| SchoolController.BuildCanteen | controllers/school_controller.ts:70-87 | a requested canteen is built iff location and name are valid; the location's error comes first |
| SchoolController.BuildCanteens | controllers/school_controller.ts:70-87 | the i-th requested canteen is built as a new object with identity firstRef + i |
| SchoolController.Unwrapped | controllers/school_controller.ts:102 | the unwrapped canteens are the Ok values, in order |
| SchoolController.ValidationErrors | controllers/school_controller.ts:89 | the results are checked in the order acronym, canteens, name |
| SchoolController.ValidateRequest | controllers/school_controller.ts:66-98 | the first error in the order acronym, canteens, name is the one reported; Ok iff all are valid; the canteens are then distinct objects |
| SchoolController.CreateSchool | controllers/school_controller.ts:57-147 | any successful by-name lookup gives "School already exists"; validation and School.create errors are 400; a failed create is 500; a school is stored iff validation passes and canteens were given |
| SchoolController.FirstErrorIsOrdered | controllers/school_controller.ts:89-91 | the error reported for `[acronym, ...canteens, name]` is the first in that order |
| SchoolController.FreshCanteensAreDistinct | controllers/school_controller.ts:100-104 | canteens built as new objects are distinct, so School.create's duplicate error cannot occur |
| SchoolController.NormalLookupBlocksCreation | controllers/school_controller.ts:61-146 | a lookup answering "no such school" still ends in "School already exists" |
| CanteenController.IndexOfName | controllers/canteen_controller.ts:158 | the position of the first canteen with the name, or none iff no canteen has it |
| CanteenController.QueryCanteenById | controllers/canteen_controller.ts:146-166 | the school lookup's error unchanged; 404 iff no canteen has the name; otherwise the first such canteen of that school |
| CanteenController.AvailableCanteens | controllers/canteen_controller.ts:28-52 | the lookup's error unchanged, or one item per canteen in order with the name as id; no canteens is not an error |
| CanteenController.DetailedCanteenInformation | controllers/canteen_controller.ts:120-144 | the query's error unchanged, or the canteen's view with id and name equal to the requested id |
| CanteenController.CreateCanteen | controllers/canteen_controller.ts:54-118 | the lookup's error unchanged; location or name errors are 400; addCanteen's error is 400; a failed update is 500; on success the school is stored with the canteen appended, and the view is that of the first same-named canteen of the updated school, or undefined when there is none |
| CanteenController.FreshCanteenIsAdded | controllers/canteen_controller.ts:82-96 | a new canteen object is always added, even when its name is already taken |
| MenuController.DishViewOf | controllers/menu_controller.ts:144-150 | the description doubles as id; the type is shown by its name |
| MenuController.MenuViewOf | controllers/menu_controller.ts:141-151 | the view carries the menu's id, its type's name and its dishes' views in order |
| MenuController.AvailableMenus | controllers/menu_controller.ts:36-71 | the canteen query's error unchanged; 404 iff nothing is stored under today's key; otherwise one item per menu of today, in order |
| MenuController.QueryMenuById | controllers/menu_controller.ts:194-223 | the canteen query's error unchanged; 404 iff no menu of any day has the id; otherwise the first menu with that id in the flattening of all days' lists, in map order |
| MenuController.DetailedMenuInformation | controllers/menu_controller.ts:160-192 | the query's error unchanged, or the view of the menu found, whose id is the requested one |
| MenuController.BuildDish | controllers/menu_controller.ts:94-110 | a requested dish is built iff its type parses and its description is non-blank; the type's error comes first; both are 400 |
| MenuController.BuildDishes | controllers/menu_controller.ts:94-110 | the i-th requested dish is built as a new object with identity firstRef + i |
| MenuController.FirstErrorIsOrdered | controllers/menu_controller.ts:112-117 | the error reported for `[menuType, ...dishes]` is the first in that order |
| MenuController.FirstDishError | controllers/menu_controller.ts:112-117 | after a valid type, the first failing dish's error is reported |
| MenuController.ValidateMenuRequest | controllers/menu_controller.ts:92-117 | the type's error comes first and is returned unchanged; Ok iff the type and every dish are valid; the dishes are then distinct objects |
| MenuController.ValidationReportsFirstDishError | controllers/menu_controller.ts:112-117 | after a valid type, the error of the first dish that cannot be built is returned |
| MenuController.FreshDishesAreDistinct | controllers/menu_controller.ts:119-122 | dishes built as new objects are distinct, so Menu.create's duplicate error cannot occur |
| MenuController.NewMenu | controllers/menu_controller.ts:119-126 | with distinct dishes the menu is built iff there is a dish; it has no id |
| MenuController.SchoolWithMenu | controllers/menu_controller.ts:129-131 | the school seen by updateCanteen holds the changed canteen at the same position, with the new menu last among today's menus, and is otherwise unchanged |
| MenuController.CreateMenu | controllers/menu_controller.ts:73-158 | the query's and type's errors are unchanged; dish and Menu.create errors are 400; updateCanteen's error is 400; the update error is unchanged; once updateCanteen succeeds the stored school is the found school with the menu added to today's list of the addressed canteen, and on a successful update the view is the new menu's, with no id |
| MenuController.CreatedMenuIsListedToday | controllers/menu_controller.ts:127-158 | after a successful createMenu the stored school lists the new menu last among today's menus of the canteen, and the response is its view |
| MenuController.CreatedMenuIsNotQueryable | controllers/menu_controller.ts:213-215 | a menu without an id is never what queryMenuById returns |
| DishController.QueryDishById | controllers/dish_controller.ts:96-132 | the menu query's error unchanged; 404 iff no dish has the description; otherwise the first dish of that menu with that description |
| DishController.AvailableDishes | controllers/dish_controller.ts:28-64 | the query's error unchanged; 404 iff the menu has no dish; otherwise one view per dish, in order |
| DishController.DetailedDishInformation | controllers/dish_controller.ts:66-94 | the query's error unchanged, or the dish's view, whose id and description are the requested id |
| DishController.FoundDishIsOwned | controllers/dish_controller.ts:96-132 | a found dish belongs to a menu with the requested id, stored in a canteen with the requested name, which belongs to the school looked up |

## Left out

- Floating point: Go coordinates are `float32` and JavaScript numbers are doubles. The model uses exact reals, so rounding at the bounds and NaN (which fails every comparison and so passes every check) are not modelled.
- JSON decoding: `fromJson` of Canteen, and values of the wrong JSON type, are left out. A missing string is modelled as None.
- The clock: `new Date()` truncated to midnight is the `today` parameter.
- The persistence layer: `MongoSchoolRepository`, the ORM-backed Go handlers, and the Go `controller/`, `view/` and `main.go` packages. Repository answers are parameters. The Mongo `update` returns an update result rather than a school; the model takes the handler's declared `Result<School, Error>`.
- `Menu.typeFromString`, `Dish.typeFromString` and `School.updateCanteen` are declared in no core file. They are parameters. `Dish.create` and `GeographicalLocation.equals` are not declared either. The model takes the first to build a new dish object and the second to compare both coordinates.
- Go `Canteen.Equals` and `Dish.Equals` are not part of this model. They are an `equals` parameter of the duplicate checks. The only property assumed of them, in the test lemmas, is reflexivity.
- Go canteen menus: no Go operation of the core reads or writes `Canteen.Menus`. The model only starts it empty.
- `src/model/dish.go` (lines 14-53) has no module of its own. It differs from `model/dish/dish.go` only in its package name and its FieldError type, which carries no explanation; the current FieldError is built there without one too. `GoDish` stands for both.
- GoMenuType.Parse: the tests call a `Parse` that no source file declares. The model's table (lunch, dinner, -1 for anything else) is a choice consistent with the three values the tests pin, so NameParse's "only these two strings are recognised" is a fact about that choice.
- MenuController.CreateMenu: `School.updateCanteen` is taken to have no effect beyond its result. The handler stores `school` after calling it, so an in-place change that function might make to the school is not modelled.
- `gorm.Model` bookkeeping fields (ID, timestamps) of the Go menu are left out.
- `FieldError.Error()` formatting is left out. The customerror FieldError and the `src/model` FieldError differ in whether they carry an explanation; both are `FieldError` here, with "" where none is given.
- The TypeScript `School.id` getter's behaviour when `_id` is missing entirely is modelled, but the handlers' direct `_id.$oid` reads are taken as `oid`. The TypeError they would throw on a school without `_id` is not modelled.
- The createMenu handler returns the menu type's parse error unchanged. Its type is whatever `Menu.typeFromString` returns. The model gives the parameter an error of the handlers' error type.

## Findings

| source | as written | input that shows it | evidently intended | confidence | as-written member | corrected member |
|---|---|---|---|---|---|---|
| model/school/school.go:109-114 | the acronym whitespace check indexes the string's UTF-8 bytes and asks `unicode.IsSpace` of each byte taken as a code point | "à" (bytes C3 A0) is rejected because A0 reads as NO-BREAK SPACE; "A　B" is accepted although U+3000 is whitespace | reject an acronym iff one of its characters is whitespace | high, not executed | GoSchool.GrantNoSpacesAsWritten | GoSchool.GrantAcronymHasNoSpaces |
| models/canteen.ts:30-56 | `todayMenus` and `addMenu` each build a new `Date` and use it as the Map key; a Map compares object keys by identity | add a menu, then ask for today's menus the same day: the lookup misses, so availableMenus answers 404 | key the menus by calendar day | high, not executed | TsCanteen.AddMenuAsWritten | TsCanteen.AddMenu |
