/**
 * `Array.prototype.sort` with a comparator. Since the 2019 edition,
 * ECMA-262 requires the sort to be stable; for a consistent comparator the
 * stable sorted permutation is unique, so it is modelled here by insertion
 * sort, done in place on the array. `less(x, y)` stands for
 * `comparator(x, y) < 0`: x must come before y.
 */
module ArraySort {

  /**
   * A consistent comparator: `less` is asymmetric and "not less" is
   * transitive (a strict weak order; its complement is a total preorder).
   */
  ghost predicate StrictWeakOrder<T(!new)>(less: (T, T) -> bool) {
    && (forall a, b :: less(a, b) ==> !less(b, a))
    && (forall a, b, c :: !less(b, a) && !less(c, b) ==> !less(c, a))
  }

  /** No element is strictly less than an element placed before it. */
  ghost predicate Ordered<T>(s: seq<T>, less: (T, T) -> bool) {
    forall i, j :: 0 <= i < j < |s| ==> !less(s[j], s[i])
  }

  /** Neither element must come before the other. */
  predicate Tied<T>(x: T, y: T, less: (T, T) -> bool) {
    !less(x, y) && !less(y, x)
  }

  /** The elements of `s` tied with `y`, in their order in `s`. */
  function TiesWith<T>(s: seq<T>, y: T, less: (T, T) -> bool): seq<T> {
    if s == [] then []
    else TiesWith(s[..|s| - 1], y, less) + (if Tied(s[|s| - 1], y, less) then [s[|s| - 1]] else [])
  }

  /**
   * One step of insertion sort: `x` moves left past the elements it is
   * strictly less than, and stops behind the first one it is not.
   */
  function Insert<T>(s: seq<T>, x: T, less: (T, T) -> bool): (r: seq<T>)
    ensures |r| == |s| + 1
  {
    if s == [] then [x]
    else if less(x, s[|s| - 1]) then Insert(s[..|s| - 1], x, less) + [s[|s| - 1]]
    else s + [x]
  }

  /** The stable sort of `s` under `less`. */
  function StableSorted<T>(s: seq<T>, less: (T, T) -> bool): (r: seq<T>)
    ensures |r| == |s|
  {
    if s == [] then []
    else Insert(StableSorted(s[..|s| - 1], less), s[|s| - 1], less)
  }

  lemma {:induction false} InsertPermutes<T>(s: seq<T>, x: T, less: (T, T) -> bool)
    ensures multiset(Insert(s, x, less)) == multiset(s) + multiset{x}
  {
    if s != [] && less(x, s[|s| - 1]) {
      InsertPermutes(s[..|s| - 1], x, less);
      assert s == s[..|s| - 1] + [s[|s| - 1]];
    }
  }

  /** The sort is a permutation of its input. */
  lemma {:induction false} SortPermutes<T>(s: seq<T>, less: (T, T) -> bool)
    ensures multiset(StableSorted(s, less)) == multiset(s)
  {
    if s != [] {
      SortPermutes(s[..|s| - 1], less);
      InsertPermutes(StableSorted(s[..|s| - 1], less), s[|s| - 1], less);
      assert s == s[..|s| - 1] + [s[|s| - 1]];
    }
  }

  lemma {:induction false} InsertOrdered<T(!new)>(s: seq<T>, x: T, less: (T, T) -> bool)
    requires StrictWeakOrder(less) && Ordered(s, less)
    ensures Ordered(Insert(s, x, less), less)
  {
    if s != [] {
      var init, last := s[..|s| - 1], s[|s| - 1];
      if less(x, last) {
        InsertOrdered(init, x, less);
        InsertPermutes(init, x, less);
        var r := Insert(init, x, less);
        forall k | 0 <= k < |r| ensures !less(last, r[k]) {
          assert r[k] in multiset(r);
          if r[k] != x {
            assert r[k] in multiset(init);
            var m :| 0 <= m < |init| && init[m] == r[k];
            assert s[m] == r[k];
          }
        }
      } else {
        forall k | 0 <= k < |s| ensures !less(x, s[k]) {
          if k < |s| - 1 {
            assert !less(last, s[k]);
          }
        }
      }
    }
  }

  /** The result of the sort is ordered. */
  lemma {:induction false} SortedIsOrdered<T(!new)>(s: seq<T>, less: (T, T) -> bool)
    requires StrictWeakOrder(less)
    ensures Ordered(StableSorted(s, less), less)
  {
    if s != [] {
      SortedIsOrdered(s[..|s| - 1], less);
      InsertOrdered(StableSorted(s[..|s| - 1], less), s[|s| - 1], less);
    }
  }

  /** Sorting an ordered sequence changes nothing. */
  lemma {:induction false} SortOfOrdered<T>(s: seq<T>, less: (T, T) -> bool)
    requires Ordered(s, less)
    ensures StableSorted(s, less) == s
  {
    if s != [] {
      var init := s[..|s| - 1];
      assert Ordered(init, less);
      SortOfOrdered(init, less);
      assert s == init + [s[|s| - 1]];
      if init != [] {
        assert !less(s[|s| - 1], init[|init| - 1]);
      }
    }
  }

  /** Sorting twice under the same comparator is sorting once. */
  lemma SortIdempotent<T(!new)>(s: seq<T>, less: (T, T) -> bool)
    requires StrictWeakOrder(less)
    ensures StableSorted(StableSorted(s, less), less) == StableSorted(s, less)
  {
    SortedIsOrdered(s, less);
    SortOfOrdered(StableSorted(s, less), less);
  }

  lemma {:induction false} InsertTies<T(!new)>(s: seq<T>, x: T, y: T, less: (T, T) -> bool)
    requires StrictWeakOrder(less)
    ensures TiesWith(Insert(s, x, less), y, less)
         == TiesWith(s, y, less) + (if Tied(x, y, less) then [x] else [])
  {
    if s == [] {
      assert TiesWith([x], y, less) == TiesWith([], y, less) + (if Tied(x, y, less) then [x] else []);
    } else {
      var init, last := s[..|s| - 1], s[|s| - 1];
      if less(x, last) {
        InsertTies(init, x, y, less);
        var r := Insert(init, x, less);
        assert (r + [last])[..|r|] == r;
        assert !(Tied(x, y, less) && Tied(last, y, less));
      } else {
        assert (s + [x])[..|s|] == s;
      }
    }
  }

  /**
   * The sort is stable: for every class of tied elements, the output lists
   * them in the order of the input.
   */
  lemma {:induction false} SortIsStable<T(!new)>(s: seq<T>, y: T, less: (T, T) -> bool)
    requires StrictWeakOrder(less)
    ensures TiesWith(StableSorted(s, less), y, less) == TiesWith(s, y, less)
  {
    if s != [] {
      SortIsStable(s[..|s| - 1], y, less);
      InsertTies(StableSorted(s[..|s| - 1], less), s[|s| - 1], y, less);
    }
  }

  /**
   * Inserts `a[i]` into the sorted prefix `a[..i]`, shifting right the
   * elements it is strictly less than.
   */
  method InsertAt<T>(a: array<T>, i: nat, less: (T, T) -> bool)
    requires i < a.Length
    modifies a
    ensures a[..i + 1] == Insert(old(a[..i]), old(a[i]), less)
    ensures a[i + 1..] == old(a[i + 1..])
  {
    ghost var sorted := a[..i];
    var x := a[i];
    var j := MakeRoom(a, i, x, less, sorted);
    InsertPast(sorted, j, x, less);
    a[j] := x;
    assert a[..i + 1] == sorted[..j] + [x] + sorted[j..];
  }

  /**
   * Shifts right, by one place, the elements at the end of the prefix
   * `sorted` that `x` is strictly less than; returns the freed slot, which
   * follows an element `x` is not less than, if any.
   */
  method MakeRoom<T>(a: array<T>, i: nat, x: T, less: (T, T) -> bool, ghost sorted: seq<T>) returns (j: nat)
    requires i < a.Length && a[..i] == sorted
    modifies a
    ensures j <= i
    ensures forall k :: 0 <= k < j ==> a[k] == sorted[k]
    ensures forall k :: j < k <= i ==> a[k] == sorted[k - 1]
    ensures forall k :: i < k < a.Length ==> a[k] == old(a[k])
    ensures forall k :: j <= k < i ==> less(x, sorted[k])
    ensures j == 0 || !less(x, sorted[j - 1])
  {
    j := i;
    while j > 0 && less(x, a[j - 1])
      invariant 0 <= j <= i
      invariant forall k :: 0 <= k < j ==> a[k] == sorted[k]
      invariant forall k :: j < k <= i ==> a[k] == sorted[k - 1]
      invariant forall k :: i < k < a.Length ==> a[k] == old(a[k])
      invariant forall k :: j <= k < i ==> less(x, sorted[k])
    {
      a[j] := a[j - 1];
      j := j - 1;
    }
  }

  /**
   * Insertion puts `x` behind the last element it is not less than, when
   * it is less than every element after that one.
   */
  lemma {:induction false} InsertPast<T>(s: seq<T>, j: nat, x: T, less: (T, T) -> bool)
    requires j <= |s|
    requires forall k :: j <= k < |s| ==> less(x, s[k])
    requires j == 0 || !less(x, s[j - 1])
    ensures Insert(s, x, less) == s[..j] + [x] + s[j..]
  {
    if j < |s| {
      var init := s[..|s| - 1];
      InsertPast(init, j, x, less);
      assert init[..j] == s[..j];
      assert init[j..] + [s[|s| - 1]] == s[j..];
    } else {
      assert s[..j] == s && s[j..] == [];
    }
  }

  /** Sorts `a` in place, stably, as `Array.prototype.sort(comparator)` does. */
  method Sort<T>(a: array<T>, less: (T, T) -> bool)
    modifies a
    ensures a[..] == StableSorted(old(a[..]), less)
  {
    ghost var s := a[..];
    for i := 0 to a.Length
      invariant a[..i] == StableSorted(s[..i], less)
      invariant a[i..] == s[i..]
    {
      assert s[..i + 1] == s[..i] + [s[i]];
      InsertAt(a, i, less);
      assert a[i + 1..] == s[i + 1..];
    }
    assert s[..a.Length] == s;
  }
}
