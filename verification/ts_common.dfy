/**
 * The shared TypeScript helpers (models/common.ts): NonEmptyString,
 * HasDuplicates, plus the Array.prototype.find and indexOf they and the
 * controllers rely on.
 */
module TsCommon {
  import opened Wrappers
  import opened Text

  /** JavaScript object identity: what `===` compares when applied to objects. */
  type Ref = nat

  /** A String object known to hold a non-blank value. */
  datatype NonEmptyString = NonEmptyString(value: string)

  const EmptyStringError := "string cannot be empty"

  /**
   * NonEmptyString.create. A null or undefined value (None) short-circuits
   * the optional chain to undefined, and `undefined > 0` is false.
   */
  function CreateNonEmptyString(value: Option<string>): (r: Result<NonEmptyString, string>)
    ensures r.Ok? <==> value.Some? && exists i :: 0 <= i < |value.value| && !JsIsWhiteSpace(value.value[i])
    ensures r.Ok? ==> r.value.value == value.value
    ensures r.Err? ==> r.error == EmptyStringError
  {
    match value
    case None => Err(EmptyStringError)
    case Some(s) => if !TrimsToEmpty(s, JsIsWhiteSpace) then Ok(NonEmptyString(s)) else Err(EmptyStringError)
  }

  /** Array.prototype.indexOf: the first position holding x, or -1. */
  function IndexOf<T(==)>(a: seq<T>, x: T): (r: int)
    ensures -1 <= r < |a|
    ensures r == -1 <==> x !in a
    ensures r >= 0 ==> a[r] == x && forall k :: 0 <= k < r ==> a[k] != x
  {
    if |a| == 0 then -1
    else if a[0] == x then 0
    else
      var r := IndexOf(a[1..], x);
      assert forall k :: 1 <= k < |a| ==> a[k] == a[1..][k - 1];
      if r == -1 then -1 else r + 1
  }

  /**
   * The elements among the first n that `array.filter((e, i, a) => a.indexOf(e) !== i)`
   * keeps: those whose first occurrence lies earlier.
   */
  function LaterOccurrences<T(==)>(a: seq<T>, n: nat): (r: seq<T>)
    requires n <= |a|
    ensures |r| > 0 <==> exists i, j :: 0 <= i < j < n && a[i] == a[j]
  {
    if n == 0 then []
    else
      var rest := LaterOccurrences(a, n - 1);
      var first := IndexOf(a, a[n - 1]);
      if first != n - 1 then
        assert a[first] == a[n - 1];
        rest + [a[n - 1]]
      else
        rest
  }

  /** `===` equality of two positions of an array. */
  predicate HasRepeat<T(==)>(a: seq<T>) {
    exists i, j :: 0 <= i < j < |a| && a[i] == a[j]
  }

  /** HasDuplicates: the filtered array is non-empty iff some value occurs twice. */
  function HasDuplicates<T(==)>(a: seq<T>): (b: bool)
    ensures b <==> HasRepeat(a)
    ensures |a| < 2 ==> !b
  {
    |LaterOccurrences(a, |a|)| != 0
  }

  /** Array.prototype.find: the first element satisfying p, if any. */
  function Find<T(==)>(a: seq<T>, p: T -> bool): (r: Option<T>)
    ensures r.None? <==> forall k :: 0 <= k < |a| ==> !p(a[k])
    ensures r.Some? ==> exists k :: 0 <= k < |a| && a[k] == r.value && p(a[k])
                                   && forall j :: 0 <= j < k ==> !p(a[j])
  {
    if |a| == 0 then None
    else if p(a[0]) then Some(a[0])
    else
      var r := Find(a[1..], p);
      assert forall k :: 1 <= k < |a| ==> a[k] == a[1..][k - 1];
      if r.Some? then
        var k :| 0 <= k < |a[1..]| && a[1..][k] == r.value && p(a[1..][k])
                 && forall j :: 0 <= j < k ==> !p(a[1..][j]);
        assert a[k + 1] == r.value;
        r
      else r
  }

  /** The error a result carries, if it is one. */
  function ErrorOf<T, E>(r: Result<T, E>): Option<E> {
    match r
    case Ok(_) => None
    case Err(e) => Some(e)
  }

  /**
   * `results.find((r) => r.isErr())` followed by `unwrapErr()`: the error of
   * the first failed result, given each result's error (None for Ok).
   */
  function FirstError<E(==)>(errors: seq<Option<E>>): (r: Option<E>)
    ensures r.None? <==> forall k :: 0 <= k < |errors| ==> errors[k].None?
    ensures r.Some? ==> exists k :: 0 <= k < |errors| && errors[k] == r
                                   && forall j :: 0 <= j < k ==> errors[j].None?
  {
    if |errors| == 0 then None
    else if errors[0].Some? then errors[0]
    else
      var r := FirstError(errors[1..]);
      assert forall k :: 1 <= k < |errors| ==> errors[k] == errors[1..][k - 1];
      if r.Some? then
        var k :| 0 <= k < |errors[1..]| && errors[1..][k] == r
                 && forall j :: 0 <= j < k ==> errors[1..][j].None?;
        assert errors[k + 1] == r;
        r
      else r
  }

  /** The error of each result, position by position. */
  function ErrorsOf<T, E>(results: seq<Result<T, E>>): (r: seq<Option<E>>)
    ensures |r| == |results| && forall i :: 0 <= i < |r| ==> r[i] == ErrorOf(results[i])
  {
    seq(|results|, i requires 0 <= i < |results| => ErrorOf(results[i]))
  }

  /** An error preceded only by successes is the one FirstError picks. */
  lemma FirstErrorAt<E>(errors: seq<Option<E>>, k: nat)
    requires k < |errors| && errors[k].Some?
    requires forall j :: 0 <= j < k ==> errors[j].None?
    ensures FirstError(errors) == errors[k]
  {
    var r := FirstError(errors);
    var p :| 0 <= p < |errors| && errors[p] == r && forall j :: 0 <= j < p ==> errors[j].None?;
    assert !(p < k) && !(k < p);
  }

  /** The cases the source's own callers rely on: blank and missing strings fail. */
  lemma NonEmptyStringExamples()
    ensures CreateNonEmptyString(None) == Err(EmptyStringError)
    ensures CreateNonEmptyString(Some("")) == Err(EmptyStringError)
    ensures CreateNonEmptyString(Some(" \t")) == Err(EmptyStringError)
    ensures CreateNonEmptyString(Some(" ISEP ")) == Ok(NonEmptyString(" ISEP "))
  {
    assert !JsIsWhiteSpace(" ISEP "[1]);
  }
}
