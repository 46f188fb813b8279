/**
 * The TypeScript canteen (models/canteen.ts): a location, a name and menus
 * keyed by day.
 *
 * The source keys its Map by Date objects, which JavaScript compares by
 * identity, so as written a menu stored under one call's Date is never found
 * under the next call's (AddMenuAsWritten below). The model keys the map by
 * the day itself, as evidently intended: the key of "today" (the current
 * date with hours, minutes, seconds and milliseconds zeroed) is an abstract
 * value the caller passes in, and two keys are the same when they are equal.
 */
module TsCanteen {
  import opened Wrappers
  import opened TsCommon
  import TsGeoLocation
  import TsMenu

  /** A midnight-truncated date, as used for menusMap keys. */
  type DayKey = int

  type Menu = TsMenu.Menu

  /** A Map<Date, Menu[]> as its entries in insertion order. */
  type MenusMap = seq<(DayKey, seq<Menu>)>

  /** No key appears twice, as in any JavaScript Map. */
  predicate KeysUnique(m: MenusMap) {
    forall i, j :: 0 <= i < j < |m| ==> m[i].0 != m[j].0
  }

  /** Map.prototype.get: the value stored under `key`, if any. */
  function Get(m: MenusMap, key: DayKey): (r: Option<seq<Menu>>)
    ensures r.None? <==> forall i :: 0 <= i < |m| ==> m[i].0 != key
    ensures r.Some? ==> exists i :: 0 <= i < |m| && m[i] == (key, r.value)
  {
    if |m| == 0 then None
    else if m[0].0 == key then Some(m[0].1)
    else
      var r := Get(m[1..], key);
      assert forall i :: 1 <= i < |m| ==> m[i] == m[1..][i - 1];
      r
  }

  /**
   * Map.prototype.set: overwrite the value of an existing key in place, or
   * append a new entry at the end.
   */
  function Set(m: MenusMap, key: DayKey, value: seq<Menu>): (r: MenusMap)
    ensures |r| == |m| + (if Get(m, key).None? then 1 else 0)
    ensures forall i :: 0 <= i < |m| ==> r[i].0 == m[i].0
    ensures Get(m, key).None? ==> r[|m|].0 == key
  {
    if |m| == 0 then [(key, value)]
    else if m[0].0 == key then [(key, value)] + m[1..]
    else [m[0]] + Set(m[1..], key, value)
  }

  /** After Set, the key maps to the new value. */
  lemma {:induction false} SetGetSame(m: MenusMap, key: DayKey, value: seq<Menu>)
    ensures Get(Set(m, key, value), key) == Some(value)
  {
    if |m| > 0 && m[0].0 != key {
      SetGetSame(m[1..], key, value);
      assert Set(m, key, value)[1..] == Set(m[1..], key, value);
    }
  }

  /** After Set, every other key maps to what it mapped to before. */
  lemma {:induction false} SetGetOther(m: MenusMap, key: DayKey, value: seq<Menu>, other: DayKey)
    requires other != key
    ensures Get(Set(m, key, value), other) == Get(m, other)
  {
    if |m| > 0 {
      if m[0].0 == key {
        assert Set(m, key, value)[1..] == m[1..];
      } else {
        SetGetOther(m[1..], key, value, other);
        assert Set(m, key, value)[1..] == Set(m[1..], key, value);
      }
    }
  }

  /** Set keeps the keys of a map unique. */
  lemma SetKeysUnique(m: MenusMap, key: DayKey, value: seq<Menu>)
    requires KeysUnique(m)
    ensures KeysUnique(Set(m, key, value))
  {
    var r := Set(m, key, value);
    forall i, j | 0 <= i < j < |r| ensures r[i].0 != r[j].0 {
      if j == |m| {
        assert Get(m, key).None?;
      }
    }
  }

  /** `Array.from(menusMap.values()).flatMap((m) => m)`: every menu, in map order. */
  function AllMenus(m: MenusMap): (r: seq<Menu>)
    ensures |m| == 0 ==> r == []
    ensures |m| > 0 ==> r == m[0].1 + AllMenus(m[1..])
    ensures forall i, k :: 0 <= i < |m| && 0 <= k < |m[i].1| ==> m[i].1[k] in r
    ensures forall x :: x in r ==> exists i :: 0 <= i < |m| && x in m[i].1
  {
    if |m| == 0 then []
    else
      var rest := AllMenus(m[1..]);
      assert forall i :: 1 <= i < |m| ==> m[i] == m[1..][i - 1];
      m[0].1 + rest
  }

  /** A list appended to the map comes last in the flattening, after every earlier list. */
  lemma {:induction false} AllMenusAppend(m: MenusMap, key: DayKey, menus: seq<Menu>)
    ensures AllMenus(m + [(key, menus)]) == AllMenus(m) + menus
  {
    if |m| > 0 {
      assert (m + [(key, menus)])[1..] == m[1..] + [(key, menus)];
      AllMenusAppend(m[1..], key, menus);
    } else {
      assert [(key, menus)][1..] == [];
    }
  }

  datatype Canteen = Canteen(ref: Ref, location: TsGeoLocation.Location, name: string, menusMap: MenusMap)

  /** Canteen.create: the unwrapped name, the location, and an empty map. */
  function Create(ref: Ref, location: TsGeoLocation.Location, name: NonEmptyString): (c: Canteen)
    ensures c.ref == ref && c.location == location && c.name == name.value
    ensures c.menusMap == [] && KeysUnique(c.menusMap)
  {
    Canteen(ref, location, name.value, [])
  }

  /** todayMenus: the list stored under today's key, or None when there is none. */
  function TodayMenus(canteen: Canteen, today: DayKey): (r: Option<seq<Menu>>)
    ensures r.None? <==> forall i :: 0 <= i < |canteen.menusMap| ==> canteen.menusMap[i].0 != today
    ensures r.Some? ==> (today, r.value) in canteen.menusMap
  {
    Get(canteen.menusMap, today)
  }

  /** The menus already stored under a key, or [] when there are none. */
  function MenusOn(canteen: Canteen, day: DayKey): seq<Menu> {
    match TodayMenus(canteen, day)
    case Some(menus) => menus
    case None => []
  }

  /**
   * addMenu: append the menu to today's list (creating it when absent) and
   * store the list back under today's key. It never fails and never looks at
   * the menu's type.
   */
  function AddMenu(canteen: Canteen, menu: Menu, today: DayKey): (r: Canteen)
    ensures r.ref == canteen.ref && r.location == canteen.location && r.name == canteen.name
    ensures KeysUnique(canteen.menusMap) ==> KeysUnique(r.menusMap)
    ensures TodayMenus(r, today) == Some(MenusOn(canteen, today) + [menu])
    ensures forall day :: day != today ==> TodayMenus(r, day) == TodayMenus(canteen, day)
  {
    var value := MenusOn(canteen, today) + [menu];
    SetGetSame(canteen.menusMap, today, value);
    assert KeysUnique(canteen.menusMap) ==> KeysUnique(Set(canteen.menusMap, today, value)) by {
      if KeysUnique(canteen.menusMap) {
        SetKeysUnique(canteen.menusMap, today, value);
      }
    }
    assert forall day :: day != today ==> Get(Set(canteen.menusMap, today, value), day) == Get(canteen.menusMap, day) by {
      forall day | day != today ensures Get(Set(canteen.menusMap, today, value), day) == Get(canteen.menusMap, day) {
        SetGetOther(canteen.menusMap, today, value, day);
      }
    }
    canteen.(menusMap := Set(canteen.menusMap, today, value))
  }

  // ---------------------------------------------------------------------------
  // As written, todayMenus and addMenu each build a NEW Date object for today
  // and use it as the Map key. A JavaScript Map compares object keys by
  // identity, so a key built by one call is never found by the next. In the
  // members below the map's keys are the identities of those Date objects.

  /** addMenu as written: the list under a freshly built Date object, which is always absent. */
  function AddMenuAsWritten(canteen: Canteen, menu: Menu, dateObject: Ref): (r: Canteen)
    requires forall i :: 0 <= i < |canteen.menusMap| ==> canteen.menusMap[i].0 != dateObject
    ensures r.ref == canteen.ref && r.location == canteen.location && r.name == canteen.name
    ensures r.menusMap == canteen.menusMap + [(dateObject, [menu])]
  {
    var r := canteen.(menusMap := Set(canteen.menusMap, dateObject, MenusOn(canteen, dateObject) + [menu]));
    assert MenusOn(canteen, dateObject) + [menu] == [menu];
    SetAppendsAbsentKey(canteen.menusMap, dateObject, [menu]);
    r
  }

  /** Set of an absent key appends exactly one entry. */
  lemma {:induction false} SetAppendsAbsentKey(m: MenusMap, key: DayKey, value: seq<Menu>)
    requires forall i :: 0 <= i < |m| ==> m[i].0 != key
    ensures Set(m, key, value) == m + [(key, value)]
  {
    if |m| > 0 {
      SetAppendsAbsentKey(m[1..], key, value);
      assert [m[0]] + (m[1..] + [(key, value)]) == m + [(key, value)];
    }
  }

  /**
   * As written, a menu added today is not found by todayMenus later the same
   * day, because todayMenus looks it up under another Date object.
   */
  lemma AsWrittenMenuIsNeverFound(canteen: Canteen, menu: Menu, added: Ref, looked: Ref)
    requires forall i :: 0 <= i < |canteen.menusMap| ==> canteen.menusMap[i].0 != added
    requires forall i :: 0 <= i < |canteen.menusMap| ==> canteen.menusMap[i].0 != looked
    requires looked != added
    ensures TodayMenus(AddMenuAsWritten(canteen, menu, added), looked).None?
  {
  }

  /**
   * The concrete case: a new canteen, one menu added, todayMenus asked the
   * same day. As written the answer is None; keyed by the day, it is the menu.
   */
  lemma AddThenTodayMenus(canteen: Canteen, menu: Menu)
    requires canteen.menusMap == []
    ensures TodayMenus(AddMenuAsWritten(canteen, menu, 1), 2).None?
    ensures TodayMenus(AddMenu(canteen, menu, 0), 0) == Some([menu])
  {
    assert MenusOn(canteen, 0) == [];
    assert [] + [menu] == [menu];
  }

  /**
   * equals: a truthy object (Some) whose name is the same string, or whose
   * location is equal.
   */
  function Equals(canteen: Canteen, obj: Option<Canteen>): (b: bool)
    ensures b <==> obj.Some? && (obj.value.name == canteen.name || TsGeoLocation.Equals(canteen.location, obj.value.location))
  {
    obj.Some? && (obj.value.name == canteen.name || TsGeoLocation.Equals(canteen.location, obj.value.location))
  }

  /** equals is reflexive and symmetric, and never holds of null or undefined. */
  lemma EqualsIsSymmetric(a: Canteen, b: Canteen)
    ensures Equals(a, Some(a))
    ensures Equals(a, Some(b)) <==> Equals(b, Some(a))
    ensures !Equals(a, None)
  {
  }

  /** Two menus of the same type added on the same day are both kept, in order. */
  lemma SameTypeTwiceIsKept(canteen: Canteen, first: Menu, second: Menu, today: DayKey)
    requires canteen.menusMap == []
    requires first.menuType == second.menuType
    ensures TodayMenus(AddMenu(AddMenu(canteen, first, today), second, today), today) == Some([first, second])
  {
    var once := AddMenu(canteen, first, today);
    assert MenusOn(canteen, today) == [];
    assert TodayMenus(once, today) == Some([] + [first]);
    assert [] + [first] == [first];
    assert MenusOn(once, today) == [first];
    assert [first] + [second] == [first, second];
  }
}
