/**
  The stable sort behind LINQ's `OrderBy`, `OrderByDescending`, `ThenBy`
  and `ThenByDescending`, and the `Take` that follows it.

  An ordering is given as a "strictly before" relation `lt`: `lt(a, b)` when
  the keys put `a` strictly ahead of `b`. Elements whose keys tie keep the
  order they had in the input.
*/
module Sorting {

  /** `lt` is a strict weak order: irreflexive, transitive, and ties
      (neither element strictly before the other) are transitive too. */
  ghost predicate StrictWeakOrder<T(!new)>(lt: (T, T) -> bool) {
    && (forall a :: !lt(a, a))
    && (forall a, b, c :: lt(a, b) && lt(b, c) ==> lt(a, c))
    && (forall a, b, c :: lt(a, c) ==> lt(a, b) || lt(b, c))
  }

  /** No element is strictly before an element to its left. */
  ghost predicate Sorted<T>(s: seq<T>, lt: (T, T) -> bool) {
    forall i, j :: 0 <= i < j < |s| ==> !lt(s[j], s[i])
  }

  /** `a` and `b` have equal keys. */
  predicate Tied<T>(a: T, b: T, lt: (T, T) -> bool) {
    !lt(a, b) && !lt(b, a)
  }

  /** The elements of `s` whose key ties with that of `v`, in order. */
  function TiedWith<T>(s: seq<T>, v: T, lt: (T, T) -> bool): seq<T> {
    if s == [] then []
    else TiedWith(s[..|s| - 1], v, lt) + (if Tied(s[|s| - 1], v, lt) then [s[|s| - 1]] else [])
  }

  /** Where `InsertBy` puts `x`: before the first element `x` is strictly
      before, so after every element whose key `x` does not beat. */
  function InsertPos<T>(x: T, s: seq<T>, lt: (T, T) -> bool): (k: nat)
    ensures k <= |s|
    ensures forall i :: 0 <= i < k ==> !lt(x, s[i])
    ensures k < |s| ==> lt(x, s[k])
  {
    if s == [] || lt(x, s[0]) then 0 else 1 + InsertPos(x, s[1..], lt)
  }

  /** One step of LINQ's stable sort: `x`, which came after all of `s` in
      the input, goes in at `InsertPos`. */
  function InsertBy<T>(x: T, s: seq<T>, lt: (T, T) -> bool): (r: seq<T>)
    ensures multiset(r) == multiset(s) + multiset{x}
    ensures |r| == |s| + 1
  {
    var k := InsertPos(x, s, lt);
    assert s == s[..k] + s[k..];
    s[..k] + [x] + s[k..]
  }

  /** Insertion sort taking the input from left to right: a stable sort. */
  function SortBy<T>(s: seq<T>, lt: (T, T) -> bool): (r: seq<T>)
    ensures multiset(r) == multiset(s)
    ensures |r| == |s|
  {
    if s == [] then []
    else
      assert s == s[..|s| - 1] + [s[|s| - 1]];
      InsertBy(s[|s| - 1], SortBy(s[..|s| - 1], lt), lt)
  }

  /** `Take(n)`: the first `n` elements, or all of them when there are fewer. */
  function Take<T>(s: seq<T>, n: int): (r: seq<T>)
    ensures |r| == if n <= 0 then 0 else if n < |s| then n else |s|
    ensures r <= s
  {
    if n <= 0 then [] else if n < |s| then s[..n] else s
  }

  /** The first elements of a sequence are some of its elements. */
  lemma TakeSubMultiset<T>(s: seq<T>, n: int)
    ensures multiset(Take(s, n)) <= multiset(s)
  {
    var k := |Take(s, n)|;
    assert s == Take(s, n) + s[k..];
  }

  // ---------------------------------------------------------------------
  // Sortedness
  // ---------------------------------------------------------------------

  /** Inserting into a sorted sequence keeps it sorted. */
  lemma InsertBySorted<T(!new)>(x: T, s: seq<T>, lt: (T, T) -> bool)
    requires StrictWeakOrder(lt)
    requires Sorted(s, lt)
    ensures Sorted(InsertBy(x, s, lt), lt)
  {
    var k := InsertPos(x, s, lt);
    var r := InsertBy(x, s, lt);
    forall i, j | 0 <= i < j < |r| ensures !lt(r[j], r[i]) {
      var si := if i < k then s[i] else if i == k then x else s[i - 1];
      var sj := if j < k then s[j] else if j == k then x else s[j - 1];
      assert r[i] == si && r[j] == sj;
      if j == k {
        // x comes after s[i], and x is not strictly before s[i]
      } else if i == k {
        // s[j - 1] sits after s[k], which x is strictly before
        assert lt(x, s[k]);
        assert !lt(s[j - 1], s[k]) || j - 1 == k;
      }
    }
  }

  /** `SortBy` returns a sorted sequence. */
  lemma {:induction false} SortBySorted<T(!new)>(s: seq<T>, lt: (T, T) -> bool)
    requires StrictWeakOrder(lt)
    ensures Sorted(SortBy(s, lt), lt)
  {
    if s != [] {
      SortBySorted(s[..|s| - 1], lt);
      InsertBySorted(s[|s| - 1], SortBy(s[..|s| - 1], lt), lt);
    }
  }

  /** The first `n` elements in sorted order are sorted and come from `s`. */
  lemma TopSorted<T(!new)>(s: seq<T>, lt: (T, T) -> bool, n: int)
    requires StrictWeakOrder(lt)
    ensures Sorted(Take(SortBy(s, lt), n), lt)
    ensures multiset(Take(SortBy(s, lt), n)) <= multiset(s)
  {
    var sorted := SortBy(s, lt);
    var t := Take(sorted, n);
    SortBySorted(s, lt);
    TakeSubMultiset(sorted, n);
    forall i, j | 0 <= i < j < |t| ensures !lt(t[j], t[i]) {
      assert t[i] == sorted[i] && t[j] == sorted[j];
    }
  }

  /** Sorting an already sorted sequence changes nothing. */
  lemma {:induction false} SortBySortedIsIdentity<T>(s: seq<T>, lt: (T, T) -> bool)
    requires Sorted(s, lt)
    ensures SortBy(s, lt) == s
  {
    if s != [] {
      var init, x := s[..|s| - 1], s[|s| - 1];
      assert Sorted(init, lt);
      SortBySortedIsIdentity(init, lt);
      AppendWhenNotBefore(x, init, lt);
      assert init + [x] == s;
    }
  }

  /** An element strictly before none of `s` goes to the end. */
  lemma {:induction false} AppendWhenNotBefore<T>(x: T, s: seq<T>, lt: (T, T) -> bool)
    requires forall i :: 0 <= i < |s| ==> !lt(x, s[i])
    ensures InsertBy(x, s, lt) == s + [x]
  {
    var k := InsertPos(x, s, lt);
    assert k == |s|;
  }

  // ---------------------------------------------------------------------
  // Stability
  // ---------------------------------------------------------------------

  lemma {:induction false} TiedWithAppend<T>(s: seq<T>, t: seq<T>, v: T, lt: (T, T) -> bool)
    ensures TiedWith(s + t, v, lt) == TiedWith(s, v, lt) + TiedWith(t, v, lt)
    decreases |t|
  {
    if t == [] {
      assert s + t == s;
    } else {
      TiedWithAppend(s, t[..|t| - 1], v, lt);
      assert (s + t)[..|s + t| - 1] == s + t[..|t| - 1];
    }
  }

  lemma TiedWithNone<T>(s: seq<T>, v: T, lt: (T, T) -> bool)
    requires forall i :: 0 <= i < |s| ==> !Tied(s[i], v, lt)
    ensures TiedWith(s, v, lt) == []
  {
    if s != [] {
      TiedWithNone(s[..|s| - 1], v, lt);
    }
  }

  /** Everything from the insertion point on is strictly after `x`, so when
      `x` ties with `v` none of it does. */
  lemma NoneTiedAfterInsertPos<T(!new)>(x: T, s: seq<T>, v: T, lt: (T, T) -> bool)
    requires StrictWeakOrder(lt)
    requires Sorted(s, lt)
    requires Tied(x, v, lt)
    ensures TiedWith(s[InsertPos(x, s, lt)..], v, lt) == []
  {
    var k := InsertPos(x, s, lt);
    var t := s[k..];
    forall i | 0 <= i < |t| ensures !Tied(t[i], v, lt) {
      var y := s[k + i];
      assert t[i] == y;
      assert lt(x, y) by {
        if i > 0 {
          assert !lt(y, s[k]);
        }
      }
    }
    TiedWithNone(t, v, lt);
  }

  /** When nothing after the insertion point ties with `v`, inserting `x`
      adds `x` at the end of the elements tied with `v`, if it is one. */
  lemma InsertByTied<T>(x: T, s: seq<T>, v: T, lt: (T, T) -> bool)
    requires Tied(x, v, lt) ==> TiedWith(s[InsertPos(x, s, lt)..], v, lt) == []
    ensures TiedWith(InsertBy(x, s, lt), v, lt)
         == TiedWith(s, v, lt) + (if Tied(x, v, lt) then [x] else [])
  {
    var k := InsertPos(x, s, lt);
    var a, b := s[..k], s[k..];
    assert a + b == s;
    assert InsertBy(x, s, lt) == a + [x] + b;
    TiedWithAround(a, x, b, v, lt);
    TiedWithAppend(a, b, v, lt);
  }

  /** The tied elements of `a + [x] + b`, piece by piece. */
  lemma TiedWithAround<T>(a: seq<T>, x: T, b: seq<T>, v: T, lt: (T, T) -> bool)
    ensures TiedWith(a + [x] + b, v, lt)
         == TiedWith(a, v, lt) + (if Tied(x, v, lt) then [x] else []) + TiedWith(b, v, lt)
  {
    TiedWithAppend(a + [x], b, v, lt);
    TiedWithAppend(a, [x], v, lt);
    assert [x][..0] == [];
  }

  /** `SortBy` is stable: for every key, the elements with that key come out
      in the order they went in. */
  lemma {:induction false} SortByStable<T(!new)>(s: seq<T>, v: T, lt: (T, T) -> bool)
    requires StrictWeakOrder(lt)
    ensures TiedWith(SortBy(s, lt), v, lt) == TiedWith(s, v, lt)
  {
    if s != [] {
      var init, x := s[..|s| - 1], s[|s| - 1];
      SortByStable(init, v, lt);
      SortBySorted(init, lt);
      if Tied(x, v, lt) {
        NoneTiedAfterInsertPos(x, SortBy(init, lt), v, lt);
      }
      InsertByTied(x, SortBy(init, lt), v, lt);
    }
  }
}
