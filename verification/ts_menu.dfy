/** The TypeScript menu (models/menu.ts): a type and a non-empty, duplicate-free dish list. */
module TsMenu {
  import opened Wrappers
  import opened TsCommon
  import TsDish
  import GoMenuType

  /** enum MenuType { lunch, dinner } */
  datatype MenuType = Lunch | Dinner {
    function Ordinal(): (n: int)
      ensures n == 0 || n == 1
    {
      match this
      case Lunch => 0
      case Dinner => 1
    }

    /** The reverse mapping `MenuType[t]`. */
    function Name(): string {
      match this
      case Lunch => "lunch"
      case Dinner => "dinner"
    }
  }

  /**
   * A menu object. Menu declares no id; the controllers read `menu.id`
   * anyway, so it is kept as a possibly undefined field, undefined on
   * every menu Create builds.
   */
  datatype Menu = Menu(ref: Ref, id: Option<string>, dishes: seq<TsDish.Dish>, menuType: MenuType)

  const NoDishError := "must provide at least one dish"
  const DuplicateDishError := "cannot have duplicate dish"

  /**
   * Menu.create: emptiness first, then duplicates by object identity
   * (HasDuplicates compares with `===`).
   */
  function Create(ref: Ref, dishes: seq<TsDish.Dish>, menuType: MenuType): (r: Result<Menu, string>)
    ensures |dishes| == 0 ==> r == Err(NoDishError)
    ensures |dishes| > 0 ==> (r == Err(DuplicateDishError) <==>
                               exists i, j :: 0 <= i < j < |dishes| && dishes[i].ref == dishes[j].ref)
    ensures r.Ok? <==> |dishes| > 0 && forall i, j :: 0 <= i < j < |dishes| ==> dishes[i].ref != dishes[j].ref
    ensures r.Ok? ==> r.value == Menu(ref, None, dishes, menuType)
  {
    var refs := TsDish.Refs(dishes);
    if |dishes| == 0 then Err(NoDishError)
    else if HasDuplicates(refs) then
      var i, j :| 0 <= i < j < |refs| && refs[i] == refs[j];
      assert dishes[i].ref == dishes[j].ref;
      Err(DuplicateDishError)
    else
      assert forall i, j :: 0 <= i < j < |dishes| ==> refs[i] == dishes[i].ref && refs[j] == dishes[j].ref;
      Ok(Menu(ref, None, dishes, menuType))
  }

  /**
   * MenuType has exactly the two members lunch = 0 and dinner = 1, named as
   * the Go stringer names them and recovered by the Go parser.
   */
  lemma MenuTypeMembers(t: MenuType)
    ensures t == Lunch || t == Dinner
    ensures Lunch.Ordinal() == 0 && Dinner.Ordinal() == 1
    ensures GoMenuType.Name(t.Ordinal()) == t.Name()
    ensures GoMenuType.Parse(t.Name()) == t.Ordinal()
  {
  }

  /** Two dish objects equal in every field but identity are not duplicates. */
  lemma EqualContentIsNotDuplicate(a: TsDish.Dish, b: TsDish.Dish, t: MenuType, ref: Ref)
    requires a.ref != b.ref
    ensures Create(ref, [a, b], t).Ok?
  {
  }
}
