/**
 * The TypeScript school (models/school.ts): an optional database id, an
 * acronym, a name and a list of canteens without repeated objects.
 */
module TsSchool {
  import opened Wrappers
  import opened TsCommon
  import TsCanteen

  type Canteen = TsCanteen.Canteen

  /** `oid` is `_id?.$oid`: None while the school has not been stored. */
  datatype School = School(oid: Option<string>, acronym: string, canteens: seq<Canteen>, name: string)

  const NoCanteenError := "must provide at least one canteen"
  const DuplicateCanteenError := "cannot have duplicate canteen"
  const AddDuplicateError := "cannot add duplicate canteen"

  /**
   * The `id` getter, `this._id?.$oid || "undefined"`: the empty string is
   * falsy, so an empty id reads as "undefined" too.
   */
  function Id(school: School): (r: string)
    ensures school.oid.None? ==> r == "undefined"
    ensures school.oid.Some? && school.oid.value != "" ==> r == school.oid.value
    ensures r != "undefined" ==> school.oid == Some(r)
  {
    match school.oid
    case Some(oid) => if oid != "" then oid else "undefined"
    case None => "undefined"
  }

  /** The identities of a list of canteens, in order. */
  function Refs(canteens: seq<Canteen>): (r: seq<Ref>)
    ensures |r| == |canteens| && forall i :: 0 <= i < |canteens| ==> r[i] == canteens[i].ref
  {
    seq(|canteens|, i requires 0 <= i < |canteens| => canteens[i].ref)
  }

  /** No canteen object occurs twice (HasDuplicates compares with `===`). */
  predicate DistinctObjects(canteens: seq<Canteen>) {
    forall i, j :: 0 <= i < j < |canteens| ==> canteens[i].ref != canteens[j].ref
  }

  /**
   * School.create: at least one canteen, then no duplicates; the school
   * starts without an id and keeps the unwrapped strings and the given list.
   */
  function Create(acronym: NonEmptyString, canteens: seq<Canteen>, name: NonEmptyString): (r: Result<School, string>)
    ensures |canteens| == 0 ==> r == Err(NoCanteenError)
    ensures |canteens| > 0 ==> (r == Err(DuplicateCanteenError) <==> !DistinctObjects(canteens))
    ensures r.Ok? <==> |canteens| > 0 && DistinctObjects(canteens)
    ensures r.Ok? ==> r.value == School(None, acronym.value, canteens, name.value)
  {
    var refs := Refs(canteens);
    if |canteens| == 0 then Err(NoCanteenError)
    else if HasDuplicates(refs) then
      var i, j :| 0 <= i < j < |refs| && refs[i] == refs[j];
      assert canteens[i].ref == canteens[j].ref;
      Err(DuplicateCanteenError)
    else
      assert forall i, j :: 0 <= i < j < |canteens| ==> refs[i] == canteens[i].ref && refs[j] == canteens[j].ref;
      Ok(School(None, acronym.value, canteens, name.value))
  }

  /** A mutator's effect: the object afterwards and the value the call returned. */
  datatype Update = Update(school: School, result: Result<(), string>)

  /**
   * addCanteen: check a copy with the canteen appended; on a duplicate object
   * return an error and leave the school as it was, otherwise push the
   * canteen at the end and return Ok(undefined).
   */
  function AddCanteen(school: School, canteen: Canteen): (r: Update)
    ensures r.result.Err? <==> !DistinctObjects(school.canteens + [canteen])
    ensures r.result.Err? ==> r.result.error == AddDuplicateError && r.school == school
    ensures r.result.Ok? ==> r.school == school.(canteens := school.canteens + [canteen])
  {
    var copy := school.canteens[..] + [canteen];
    var refs := Refs(copy);
    if HasDuplicates(refs) then
      var i, j :| 0 <= i < j < |refs| && refs[i] == refs[j];
      assert copy[i].ref == copy[j].ref;
      Update(school, Err(AddDuplicateError))
    else
      assert forall i, j :: 0 <= i < j < |copy| ==> refs[i] == copy[i].ref && refs[j] == copy[j].ref;
      Update(school.(canteens := copy), Ok(()))
  }

  /**
   * On a school whose canteens are distinct objects, addCanteen succeeds iff
   * the new canteen is not already one of them, and then grows the list by one.
   */
  lemma AddCanteenGrowsByOne(school: School, canteen: Canteen)
    requires DistinctObjects(school.canteens)
    ensures AddCanteen(school, canteen).result.Ok? <==>
              forall i :: 0 <= i < |school.canteens| ==> school.canteens[i].ref != canteen.ref
    ensures DistinctObjects(AddCanteen(school, canteen).school.canteens)
    ensures |AddCanteen(school, canteen).school.canteens| ==
              |school.canteens| + (if AddCanteen(school, canteen).result.Ok? then 1 else 0)
  {
    var copy := school.canteens + [canteen];
    if !DistinctObjects(copy) {
      var i, j :| 0 <= i < j < |copy| && copy[i].ref == copy[j].ref;
      assert j == |school.canteens|;
      assert school.canteens[i].ref == canteen.ref;
    }
    if exists i :: 0 <= i < |school.canteens| && school.canteens[i].ref == canteen.ref {
      var i :| 0 <= i < |school.canteens| && school.canteens[i].ref == canteen.ref;
      assert copy[i].ref == copy[|school.canteens|].ref;
    }
  }

  /**
   * Duplicate detection ignores Canteen.equals: two canteen objects with the
   * same name, which equals relates, still form a valid school.
   */
  lemma SameNameIsNotDuplicate(acronym: NonEmptyString, name: NonEmptyString, a: Canteen, b: Canteen)
    requires a.ref != b.ref && a.name == b.name
    ensures TsCanteen.Equals(a, Some(b))
    ensures Create(acronym, [a, b], name).Ok?
  {
  }
}
