/**
 * The TypeScript dish (models/dish.ts). Its DishType enum has three members,
 * one fewer than the Go variant's four.
 */
module TsDish {
  import opened Wrappers
  import opened TsCommon
  import GoDishType

  /** enum DishType { meat, fish, vegetarian } */
  datatype DishType = Meat | Fish | Vegetarian {
    /** The numeric value the enum assigns. */
    function Ordinal(): (n: int)
      ensures 0 <= n <= 2
    {
      match this
      case Meat => 0
      case Fish => 1
      case Vegetarian => 2
    }

    /** The reverse mapping `DishType[t]`: the member's name. */
    function Name(): string {
      match this
      case Meat => "meat"
      case Fish => "fish"
      case Vegetarian => "vegetarian"
    }
  }

  /** The member with a given numeric value, if the enum has one. */
  function FromOrdinal(n: int): (r: Option<DishType>)
    ensures r.Some? <==> 0 <= n <= 2
    ensures r.Some? ==> r.value.Ordinal() == n
  {
    if n == 0 then Some(Meat) else if n == 1 then Some(Fish) else if n == 2 then Some(Vegetarian) else None
  }

  /** A dish object: identity, description and type. */
  datatype Dish = Dish(ref: Ref, description: string, dishType: DishType)

  /**
   * Dish.create, called by the menu controller but not declared in
   * models/dish.ts: a new object holding the given description and type.
   */
  function Create(ref: Ref, description: NonEmptyString, dishType: DishType): (d: Dish)
    ensures d.ref == ref && d.description == description.value && d.dishType == dishType
  {
    Dish(ref, description.value, dishType)
  }

  /** The identities of a list of dishes, in order. */
  function Refs(dishes: seq<Dish>): (r: seq<Ref>)
    ensures |r| == |dishes| && forall i :: 0 <= i < |dishes| ==> r[i] == dishes[i].ref
  {
    seq(|dishes|, i requires 0 <= i < |dishes| => dishes[i].ref)
  }

  /**
   * Each TypeScript dish type has the Go dish type of the same number and
   * name; Go's fourth type, diet, has no TypeScript counterpart.
   */
  lemma AgreesWithGo(t: DishType)
    ensures GoDishType.Validate(t.Ordinal()) && GoDishType.Name(t.Ordinal()) == t.Name()
    ensures FromOrdinal(GoDishType.Diet).None? && GoDishType.Validate(GoDishType.Diet)
  {
  }
}
