/**
  The algorithm Go's `sort.Slice` runs on short slices (twelve elements or
  fewer): insertion sort that swaps an element left while `less` says it is
  smaller than its left neighbour. The comparator is a parameter, so the
  facts here hold for any `less`; the order-theoretic ones say which
  properties of `less` they need.
*/
module Sorting {

  /** Where `x` stops when moved left through `t`: past exactly the trailing
      run of elements that `less` puts after `x`. */
  function InsertPos<T>(t: seq<T>, x: T, less: (T, T) -> bool): (k: nat)
    ensures k <= |t|
    ensures forall j :: k <= j < |t| ==> less(x, t[j])
    ensures k > 0 ==> !less(x, t[k - 1])
  {
    if |t| == 0 then 0
    else if less(x, t[|t| - 1]) then InsertPos(t[..|t| - 1], x, less)
    else |t|
  }

  /** The three facts `InsertPos` promises determine it. */
  lemma {:induction false} InsertPosUnique<T>(t: seq<T>, x: T, less: (T, T) -> bool, k: nat)
    requires k <= |t|
    requires forall j :: k <= j < |t| ==> less(x, t[j])
    requires k > 0 ==> !less(x, t[k - 1])
    ensures InsertPos(t, x, less) == k
  {
    if k < |t| {
      InsertPosUnique(t[..|t| - 1], x, less, k);
    }
  }

  /** One outer step of insertion sort: swap `x` left while it is less than
      its left neighbour. */
  function InsertLeft<T>(t: seq<T>, x: T, less: (T, T) -> bool): (r: seq<T>)
    ensures |r| == |t| + 1
  {
    if |t| == 0 then [x]
    else if less(x, t[|t| - 1]) then InsertLeft(t[..|t| - 1], x, less) + [t[|t| - 1]]
    else t + [x]
  }

  /** The step puts `x` at `InsertPos` and shifts the rest right by one. */
  lemma {:induction false} InsertLeftShape<T>(t: seq<T>, x: T, less: (T, T) -> bool)
    ensures InsertLeft(t, x, less) == t[..InsertPos(t, x, less)] + [x] + t[InsertPos(t, x, less)..]
  {
    if |t| > 0 && less(x, t[|t| - 1]) {
      var init := t[..|t| - 1];
      var k := InsertPos(init, x, less);
      InsertLeftShape(init, x, less);
      assert init[..k] == t[..k];
      assert init[k..] + [t[|t| - 1]] == t[k..];
    }
  }

  /** The element at index `i` after inserting `x`. */
  lemma InsertLeftAt<T>(t: seq<T>, x: T, less: (T, T) -> bool, i: int)
    requires 0 <= i <= |t|
    ensures InsertLeft(t, x, less)[i] ==
      (if i < InsertPos(t, x, less) then t[i] else if i == InsertPos(t, x, less) then x else t[i - 1])
  {
    InsertLeftShape(t, x, less);
  }

  /** Inserting adds `x` and loses nothing. */
  lemma InsertLeftMultiset<T>(t: seq<T>, x: T, less: (T, T) -> bool)
    ensures multiset(InsertLeft(t, x, less)) == multiset(t) + multiset{x}
  {
    InsertLeftShape(t, x, less);
    MultisetSplice(t, InsertPos(t, x, less), x);
  }

  /** Splicing `x` in anywhere adds exactly `x`. */
  lemma MultisetSplice<T>(t: seq<T>, k: nat, x: T)
    requires k <= |t|
    ensures multiset(t[..k] + [x] + t[k..]) == multiset(t) + multiset{x}
  {
    assert t == t[..k] + t[k..];
  }

  /** Insertion sort of `s`, inserting elements from the left. */
  function SortBy<T>(s: seq<T>, less: (T, T) -> bool): seq<T> {
    if |s| == 0 then []
    else InsertLeft(SortBy(s[..|s| - 1], less), s[|s| - 1], less)
  }

  /** Sorting rearranges the elements: nothing is lost, duplicated or added. */
  lemma {:induction false} SortByPermutes<T>(s: seq<T>, less: (T, T) -> bool)
    ensures multiset(SortBy(s, less)) == multiset(s)
  {
    if |s| > 0 {
      var x := s[|s| - 1];
      SortByPermutes(s[..|s| - 1], less);
      InsertLeftMultiset(SortBy(s[..|s| - 1], less), x, less);
      assert s == s[..|s| - 1] + [x];
    }
  }

  /** Sorting one more element inserts it into the sorted prefix at `k`. */
  lemma SortSnoc<T>(s: seq<T>, x: T, less: (T, T) -> bool, sorted: seq<T>, k: nat)
    requires SortBy(s, less) == sorted
    requires k <= |sorted|
    requires forall j :: k <= j < |sorted| ==> less(x, sorted[j])
    requires k > 0 ==> !less(x, sorted[k - 1])
    ensures SortBy(s + [x], less) == sorted[..k] + [x] + sorted[k..]
  {
    assert (s + [x])[..|s|] == s;
    InsertPosUnique(sorted, x, less, k);
    InsertLeftShape(sorted, x, less);
  }

  /** No two neighbours are out of order. */
  predicate LocallySorted<T>(s: seq<T>, less: (T, T) -> bool) {
    forall i :: 0 <= i < |s| - 1 ==> !less(s[i + 1], s[i])
  }

  /** No two elements, neighbours or not, are out of order. */
  predicate Sorted<T>(s: seq<T>, less: (T, T) -> bool) {
    forall i, j :: 0 <= i < j < |s| ==> !less(s[j], s[i])
  }

  /** `less` never holds both ways between elements of `s`. */
  ghost predicate AsymmetricOn<T>(s: seq<T>, less: (T, T) -> bool) {
    forall a, b :: a in s && b in s && less(a, b) ==> !less(b, a)
  }

  /** On the elements of `s`, `less` is a strict weak order: asymmetric, and
      whenever a < c every b is above a or below c. */
  ghost predicate WeakOrderOn<T>(s: seq<T>, less: (T, T) -> bool) {
    && AsymmetricOn(s, less)
    && forall a, b, c :: a in s && b in s && c in s && less(a, c) ==> less(a, b) || less(b, c)
  }

  lemma InsertLeftLocallySorted<T>(t: seq<T>, x: T, less: (T, T) -> bool)
    requires LocallySorted(t, less)
    requires AsymmetricOn(t + [x], less)
    ensures LocallySorted(InsertLeft(t, x, less), less)
  {
    var k := InsertPos(t, x, less);
    var r := InsertLeft(t, x, less);
    forall i | 0 <= i < |r| - 1
      ensures !less(r[i + 1], r[i])
    {
      InsertLeftAt(t, x, less, i);
      InsertLeftAt(t, x, less, i + 1);
      if i == k {
        assert x in t + [x] && t[k] in t + [x];
      }
    }
  }

  /** Insertion sort never leaves two neighbours out of order, whatever else
      holds of `less`. */
  lemma {:induction false} SortLocallySorted<T>(s: seq<T>, less: (T, T) -> bool)
    requires AsymmetricOn(s, less)
    ensures LocallySorted(SortBy(s, less), less)
  {
    if |s| > 0 {
      var init := s[..|s| - 1];
      assert forall a :: a in init ==> a in s;
      SortLocallySorted(init, less);
      var t := SortBy(init, less);
      SortByPermutes(init, less);
      forall a | a in t + [s[|s| - 1]] ensures a in s {
        if a in t {
          assert a in multiset(t);
        }
      }
      InsertLeftLocallySorted(t, s[|s| - 1], less);
    }
  }

  /** Insertion sort leaves a list with no neighbour out of order unchanged. */
  lemma {:induction false} SortKeepsLocallySorted<T>(s: seq<T>, less: (T, T) -> bool)
    requires LocallySorted(s, less)
    ensures SortBy(s, less) == s
  {
    if |s| > 0 {
      var t := s[..|s| - 1];
      assert LocallySorted(t, less) by {
        forall i | 0 <= i < |t| - 1 ensures !less(t[i + 1], t[i]) {
          assert t[i] == s[i] && t[i + 1] == s[i + 1];
        }
      }
      SortKeepsLocallySorted(t, less);
      if |t| > 0 {
        assert !less(s[|s| - 1], t[|t| - 1]);
      }
      assert t + [s[|s| - 1]] == s;
    }
  }

  /** Sorting twice gives what sorting once gave. */
  lemma SortIdempotent<T>(s: seq<T>, less: (T, T) -> bool)
    requires AsymmetricOn(s, less)
    ensures SortBy(SortBy(s, less), less) == SortBy(s, less)
  {
    SortLocallySorted(s, less);
    SortKeepsLocallySorted(SortBy(s, less), less);
  }

  /** `x` stops to the right of every element that does not exceed it. */
  lemma InsertStopsAboveSmaller<T>(t: seq<T>, x: T, less: (T, T) -> bool, i: int)
    requires Sorted(t, less)
    requires WeakOrderOn(t + [x], less)
    requires 0 <= i < InsertPos(t, x, less)
    ensures !less(x, t[i])
  {
    var k := InsertPos(t, x, less);
    if i < k - 1 {
      assert !less(t[k - 1], t[i]);
      assert x in t + [x] && t[k - 1] in t + [x] && t[i] in t + [x];
    }
  }

  lemma InsertLeftSorted<T>(t: seq<T>, x: T, less: (T, T) -> bool)
    requires Sorted(t, less)
    requires WeakOrderOn(t + [x], less)
    ensures Sorted(InsertLeft(t, x, less), less)
  {
    var k := InsertPos(t, x, less);
    var r := InsertLeft(t, x, less);
    forall i, j | 0 <= i < j < |r|
      ensures !less(r[j], r[i])
    {
      InsertLeftAt(t, x, less, i);
      InsertLeftAt(t, x, less, j);
      if j == k {
        InsertStopsAboveSmaller(t, x, less, i);
      } else if i == k {
        assert x in t + [x] && t[j - 1] in t + [x];
      }
    }
  }

  /** When `less` is a strict weak order on the elements, insertion sort
      leaves no two elements out of order. */
  lemma {:induction false} SortSorted<T>(s: seq<T>, less: (T, T) -> bool)
    requires WeakOrderOn(s, less)
    ensures Sorted(SortBy(s, less), less)
  {
    if |s| > 0 {
      var init := s[..|s| - 1];
      assert forall a :: a in init ==> a in s;
      SortSorted(init, less);
      var t := SortBy(init, less);
      SortByPermutes(init, less);
      forall a | a in t + [s[|s| - 1]] ensures a in s {
        if a in t {
          assert a in multiset(t);
        }
      }
      InsertLeftSorted(t, s[|s| - 1], less);
    }
  }
}
