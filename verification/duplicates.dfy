/**
 * The pairwise duplicate scan of the Go models, written twice in the source
 * (grantNoDuplicatedCanteensExist in model/school/school.go and
 * grantNoDuplicatedDishesExist in model/menu/menu.go) and defined once here
 * over an arbitrary equality relation, because Canteen.Equals and Dish.Equals
 * are not part of this model.
 */
module Duplicates {

  /** Some two distinct positions i < j hold elements that `eq` relates. */
  predicate HasEqualPair<T>(s: seq<T>, eq: (T, T) -> bool) {
    exists i, j :: 0 <= i < j < |s| && eq(s[i], s[j])
  }

  /**
   * The nested loop of the source: for each i, compare s[i] with every later
   * element; on the first equal pair, force both loop counters past the end.
   */
  method ScanUnique<T>(s: seq<T>, eq: (T, T) -> bool) returns (unique: bool)
    ensures unique <==> !HasEqualPair(s, eq)
  {
    unique := true;
    var n := |s|;
    var i := 0;
    while i < n
      invariant 0 <= i <= n + 1
      invariant unique ==> i <= n && forall a, b :: 0 <= a < i && a < b < n ==> !eq(s[a], s[b])
      invariant !unique ==> HasEqualPair(s, eq) && i == n + 1
      decreases n + 1 - i
    {
      ghost var start := i;
      var j := i + 1;
      while j < n
        invariant start <= i && j <= n
        invariant unique ==> i == start && i + 1 <= j
        invariant unique ==> forall a, b :: 0 <= a < i && a < b < n ==> !eq(s[a], s[b])
        invariant unique ==> forall b :: i < b < j ==> !eq(s[i], s[b])
        invariant !unique ==> HasEqualPair(s, eq) && i == n && j == n
        decreases n - j
      {
        unique := !eq(s[i], s[j]);
        j := j + 1;
        if !unique {
          i := n;
          j := i;
        }
      }
      i := i + 1;
    }
  }

  /** Fewer than two elements never contain a duplicate pair. */
  lemma ShortHasNoPair<T>(s: seq<T>, eq: (T, T) -> bool)
    requires |s| < 2
    ensures !HasEqualPair(s, eq)
  {
  }

  /** Appending x keeps a duplicate-free sequence duplicate-free iff x relates to no earlier element. */
  lemma AppendPair<T>(s: seq<T>, x: T, eq: (T, T) -> bool)
    ensures HasEqualPair(s + [x], eq) <==>
              HasEqualPair(s, eq) || exists i :: 0 <= i < |s| && eq(s[i], x)
  {
    var t := s + [x];
    if HasEqualPair(t, eq) {
      var i, j :| 0 <= i < j < |t| && eq(t[i], t[j]);
      if j < |s| {
        assert eq(s[i], s[j]);
      } else {
        assert eq(s[i], x);
      }
    }
    if HasEqualPair(s, eq) {
      var i, j :| 0 <= i < j < |s| && eq(s[i], s[j]);
      assert eq(t[i], t[j]);
    }
    if exists i :: 0 <= i < |s| && eq(s[i], x) {
      var i :| 0 <= i < |s| && eq(s[i], x);
      assert eq(t[i], t[|s|]);
    }
  }
}
