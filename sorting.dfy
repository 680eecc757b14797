/**
 * Go's `sort.Slice` and `sort.Strings`: an in-place sort of a slice by a
 * caller-given "less" function. Go does not promise stability, so the
 * contract says only that the result is ordered and a permutation of the
 * input; insertion sort is one algorithm that meets it.
 */
module Sorting {

  /** No element is smaller than the one before it. */
  ghost predicate AdjacentSorted<T>(s: seq<T>, less: (T, T) -> bool) {
    forall i | 0 < i < |s| :: !less(s[i], s[i - 1])
  }

  /** No element is smaller than any element before it. */
  ghost predicate Sorted<T>(s: seq<T>, less: (T, T) -> bool) {
    forall i, j | 0 <= i < j < |s| :: !less(s[j], s[i])
  }

  ghost predicate Asymmetric<T(!new)>(less: (T, T) -> bool) {
    forall x, y :: less(x, y) ==> !less(y, x)
  }

  /** "Not less than" is transitive, as for every strict weak order. */
  ghost predicate NotLessTransitive<T(!new)>(less: (T, T) -> bool) {
    forall x, y, z :: !less(x, y) && !less(y, z) ==> !less(x, z)
  }

  /** Any two distinct values are ordered one way or the other. */
  ghost predicate Total<T(!new)>(less: (T, T) -> bool) {
    forall x, y :: x == y || less(x, y) || less(y, x)
  }

  /**
   * Sorts `a` in place: afterwards it holds the same elements and no element
   * is smaller than its predecessor.
   */
  method InsertionSort<T(!new)>(a: array<T>, less: (T, T) -> bool)
    requires Asymmetric(less)
    modifies a
    ensures AdjacentSorted(a[..], less)
    ensures multiset(a[..]) == multiset(old(a[..]))
  {
    var i := 0;
    while i < a.Length
      invariant 0 <= i <= a.Length
      invariant AdjacentSorted(a[..i], less)
      invariant multiset(a[..]) == multiset(old(a[..]))
    {
      Insert(a, i, less);
      i := i + 1;
    }
    assert a[..i] == a[..];
  }

  /**
   * Sorts a copy of `s`, as Go code does when it copies a slice and sorts
   * the copy in place.
   */
  method SortedCopy<T(!new)>(s: seq<T>, less: (T, T) -> bool) returns (r: seq<T>)
    requires Asymmetric(less) && NotLessTransitive(less)
    ensures Sorted(r, less)
    ensures multiset(r) == multiset(s)
  {
    var a := new T[|s|](i requires 0 <= i < |s| => s[i]);
    assert a[..] == s;
    InsertionSort(a, less);
    r := a[..];
    AdjacentSortedIsSorted(r, less);
  }

  /** Moves `a[i]` left into the sorted prefix `a[..i]`. */
  method Insert<T(!new)>(a: array<T>, i: nat, less: (T, T) -> bool)
    requires Asymmetric(less)
    requires i < a.Length && AdjacentSorted(a[..i], less)
    modifies a
    ensures AdjacentSorted(a[..i + 1], less)
    ensures multiset(a[..]) == multiset(old(a[..]))
  {
    var j := i;
    while j > 0 && less(a[j], a[j - 1])
      invariant 0 <= j <= i
      invariant AdjacentSorted(a[..j], less)
      invariant AdjacentSorted(a[j..i + 1], less)
      invariant 0 < j < i ==> !less(a[j + 1], a[j - 1])
      invariant multiset(a[..]) == multiset(old(a[..]))
    {
      ghost var before := a[..];
      a[j - 1], a[j] := a[j], a[j - 1];
      ghost var after := a[..];
      assert after == before[j - 1 := before[j]][j := before[j - 1]];
      SwapKeepsOrder(before, after, j, i, less);
      SwapKeepsElements(before, j);
      j := j - 1;
    }
    InsertDone(a[..], j, i, less);
  }

  /** Insertion stops where the moved element is not less than its new predecessor. */
  lemma InsertDone<T(!new)>(s: seq<T>, j: nat, i: nat, less: (T, T) -> bool)
    requires j <= i < |s|
    requires AdjacentSorted(s[..j], less) && AdjacentSorted(s[j..i + 1], less)
    requires j > 0 ==> !less(s[j], s[j - 1])
    ensures AdjacentSorted(s[..i + 1], less)
  {
    var t := s[..i + 1];
    if j > 0 {
      assert t[..j] == s[..j] && t[j..] == s[j..i + 1];
      JoinSorted(t, j, less);
    } else {
      assert t == s[j..i + 1];
    }
  }

  /** The inner step of insertion: swapping `s[j - 1]` and `s[j]` moves the gap left. */
  lemma SwapKeepsOrder<T(!new)>(s: seq<T>, t: seq<T>, j: nat, i: nat, less: (T, T) -> bool)
    requires Asymmetric(less)
    requires 0 < j <= i < |s| == |t|
    requires t == s[j - 1 := s[j]][j := s[j - 1]]
    requires less(s[j], s[j - 1])
    requires AdjacentSorted(s[..j], less) && AdjacentSorted(s[j..i + 1], less)
    requires j < i ==> !less(s[j + 1], s[j - 1])
    ensures AdjacentSorted(t[..j - 1], less) && AdjacentSorted(t[j - 1..i + 1], less)
    ensures 0 < j - 1 < i ==> !less(t[j], t[j - 2])
  {
    assert t[..j - 1] == s[..j - 1];
    forall k | j - 1 < k < i + 1
      ensures !less(t[k], t[k - 1])
    {
      if k > j + 1 {
        assert t[k] == s[j..i + 1][k - j] && t[k - 1] == s[j..i + 1][k - 1 - j];
      }
    }
    if 0 < j - 1 {
      assert s[..j][j - 1] == s[j - 1] && s[..j][j - 2] == s[j - 2];
    }
  }

  lemma SwapKeepsElements<T>(s: seq<T>, j: nat)
    requires 0 < j < |s|
    ensures multiset(s[j - 1 := s[j]][j := s[j - 1]]) == multiset(s)
  {
  }

  /** Two sorted runs that meet in order make one sorted run. */
  lemma JoinSorted<T(!new)>(s: seq<T>, j: nat, less: (T, T) -> bool)
    requires 0 < j < |s|
    requires AdjacentSorted(s[..j], less) && AdjacentSorted(s[j..], less)
    requires !less(s[j], s[j - 1])
    ensures AdjacentSorted(s, less)
  {
    forall k | 0 < k < |s|
      ensures !less(s[k], s[k - 1])
    {
      if k < j {
        assert s[k] == s[..j][k] && s[k - 1] == s[..j][k - 1];
      } else if k > j {
        assert s[k] == s[j..][k - j] && s[k - 1] == s[j..][k - 1 - j];
      }
    }
  }

  /** Under a strict weak order, local order is global order. */
  lemma {:induction false} AdjacentSortedIsSorted<T(!new)>(s: seq<T>, less: (T, T) -> bool)
    requires NotLessTransitive(less)
    requires AdjacentSorted(s, less)
    ensures Sorted(s, less)
  {
    if |s| > 1 {
      var init := s[..|s| - 1];
      assert AdjacentSorted(init, less);
      AdjacentSortedIsSorted(init, less);
      forall i | 0 <= i < |s| - 1
        ensures !less(s[|s| - 1], s[i])
      {
        assert !less(s[|s| - 1], s[|s| - 2]);
        if i < |s| - 2 {
          assert !less(init[|s| - 2], init[i]);
        }
      }
    }
  }

  /**
   * Under a total order there is only one sorted arrangement of a multiset:
   * two sorted sequences with the same elements are equal.
   */
  lemma {:induction false} SortedUnique<T(!new)>(s: seq<T>, t: seq<T>, less: (T, T) -> bool)
    requires Total(less)
    requires Sorted(s, less) && Sorted(t, less)
    requires multiset(s) == multiset(t)
    ensures s == t
  {
    if s == [] {
      assert |t| == |multiset(t)| == 0;
    } else {
      assert |t| == |multiset(t)| == |s| > 0;
      SameFirst(s, t, less);
      TailElements(s);
      TailElements(t);
      SortedUnique(s[1..], t[1..], less);
      assert s == [s[0]] + s[1..] && t == [t[0]] + t[1..];
    }
  }

  /** Two sorted sequences with the same elements start with the same (least) one. */
  lemma SameFirst<T(!new)>(s: seq<T>, t: seq<T>, less: (T, T) -> bool)
    requires Total(less)
    requires Sorted(s, less) && Sorted(t, less)
    requires |s| > 0 && |t| > 0 && multiset(s) == multiset(t)
    ensures s[0] == t[0]
  {
    assert s[0] in multiset(t);
    var k :| 0 <= k < |t| && t[k] == s[0];
    assert t[0] in multiset(s);
    var m :| 0 <= m < |s| && s[m] == t[0];
    assert m > 0 ==> !less(s[m], s[0]);
    assert k > 0 ==> !less(t[k], t[0]);
  }

  lemma TailElements<T>(s: seq<T>)
    requires |s| > 0
    ensures multiset(s[1..]) == multiset(s) - multiset{s[0]}
  {
    assert s == [s[0]] + s[1..];
  }
}
