/**
  The two list algorithms of the C++ standard library that the terrain code relies on:
  `std::list::sort` with a strict comparator (a stable sort) and `std::list::unique`
  (which drops every element equal to the element kept just before it).
 */
module Sorting {

  /** `lt` is a strict order: irreflexive and transitive, as a C++ comparator must be. */
  ghost predicate StrictOrder<T(!new)>(lt: (T, T) -> bool) {
    (forall a :: !lt(a, a)) &&
    (forall a, b, c :: lt(a, b) && lt(b, c) ==> lt(a, c))
  }

  /** No element of `s` is smaller (for `lt`) than an element before it. */
  ghost predicate SortedBy<T>(s: seq<T>, lt: (T, T) -> bool) {
    forall i, j :: 0 <= i < j < |s| ==> !lt(s[j], s[i])
  }

  /** Every element of `s` is smaller (for `lt`) than every element after it. */
  ghost predicate StrictlySortedBy<T>(s: seq<T>, lt: (T, T) -> bool) {
    forall i, j :: 0 <= i < j < |s| ==> lt(s[i], s[j])
  }

  /** Puts `x` after the leading elements of `s` that are not greater than it. */
  function Insert<T>(x: T, s: seq<T>, lt: (T, T) -> bool): (r: seq<T>)
    ensures |r| == |s| + 1
    ensures multiset(r) == multiset(s) + multiset{x}
  {
    if s == [] then [x]
    else if lt(x, s[0]) then [x] + s
    else
      assert s == [s[0]] + s[1..];
      [s[0]] + Insert(x, s[1..], lt)
  }

  /** Stable insertion sort: the elements are inserted in their original order. */
  function SortBy<T>(s: seq<T>, lt: (T, T) -> bool): (r: seq<T>)
    ensures |r| == |s|
    ensures multiset(r) == multiset(s)
  {
    if s == [] then []
    else
      assert s == s[..|s| - 1] + [s[|s| - 1]];
      Insert(s[|s| - 1], SortBy(s[..|s| - 1], lt), lt)
  }

  lemma {:induction false} InsertSorted<T(!new)>(x: T, s: seq<T>, lt: (T, T) -> bool)
    requires StrictOrder(lt) && SortedBy(s, lt)
    ensures SortedBy(Insert(x, s, lt), lt)
  {
    if s == [] {
    } else if lt(x, s[0]) {
      var r := [x] + s;
      forall i, j | 0 <= i < j < |r| ensures !lt(r[j], r[i]) {
        assert r[j] == s[j - 1];
        if i > 0 {
          assert r[i] == s[i - 1];
        }
      }
    } else {
      var tail := Insert(x, s[1..], lt);
      InsertSorted(x, s[1..], lt);
      var r := [s[0]] + tail;
      forall i, j | 0 <= i < j < |r| ensures !lt(r[j], r[i]) {
        if i == 0 {
          assert r[j] in multiset(tail);
          assert r[j] in multiset(s[1..]) || r[j] == x;
          if r[j] != x {
            var k :| 0 <= k < |s[1..]| && s[1..][k] == r[j];
            assert s[k + 1] == r[j];
          }
        } else {
          assert r[i] == tail[i - 1] && r[j] == tail[j - 1];
        }
      }
    }
  }

  /** The result of SortBy is ordered for `lt`. */
  lemma {:induction false} SortBySorted<T(!new)>(s: seq<T>, lt: (T, T) -> bool)
    requires StrictOrder(lt)
    ensures SortedBy(SortBy(s, lt), lt)
  {
    if s != [] {
      SortBySorted(s[..|s| - 1], lt);
      InsertSorted(s[|s| - 1], SortBy(s[..|s| - 1], lt), lt);
    }
  }

  /** `std::list::unique` with an equality that compares `key`s: each element is dropped when its
      key equals the key of the element kept last. */
  function UniqueBy<T, K(==)>(s: seq<T>, key: T -> K): (r: seq<T>)
    ensures |r| <= |s|
    ensures |s| > 0 ==> |r| > 0 && r[0] == s[0] && key(r[|r| - 1]) == key(s[|s| - 1])
    ensures forall i :: 0 <= i < |r| - 1 ==> key(r[i]) != key(r[i + 1])
  {
    if |s| <= 1 then s
    else
      var r := UniqueBy(s[..|s| - 1], key);
      var x := s[|s| - 1];
      if key(r[|r| - 1]) == key(x) then r else r + [x]
  }

  /** The sort depends on the comparator's values only. */
  lemma {:induction false} SortBySame<T>(s: seq<T>, lt: (T, T) -> bool, lt': (T, T) -> bool)
    requires forall a, b :: lt'(a, b) == lt(a, b)
    ensures SortBy(s, lt') == SortBy(s, lt)
  {
    if s != [] {
      SortBySame(s[..|s| - 1], lt, lt');
      InsertSame(s[|s| - 1], SortBy(s[..|s| - 1], lt), lt, lt');
    }
  }

  lemma {:induction false} InsertSame<T>(x: T, s: seq<T>, lt: (T, T) -> bool, lt': (T, T) -> bool)
    requires forall a, b :: lt'(a, b) == lt(a, b)
    ensures Insert(x, s, lt') == Insert(x, s, lt)
  {
    if s != [] && !lt(x, s[0]) {
      InsertSame(x, s[1..], lt, lt');
    }
  }

  /** `unique` keeps only elements of its input. */
  lemma {:induction false} UniqueByKeeps<T, K>(s: seq<T>, key: T -> K, i: nat)
    requires i < |UniqueBy(s, key)|
    ensures UniqueBy(s, key)[i] in s
  {
    if |s| > 1 {
      var init := s[..|s| - 1];
      var r0 := UniqueBy(init, key);
      if i < |r0| {
        UniqueByKeeps(init, key, i);
        assert UniqueBy(s, key)[i] == r0[i];
      } else {
        assert UniqueBy(s, key)[i] == s[|s| - 1];
      }
    }
  }

  /** Nothing is lost by `unique`: every element has a kept element with the same key. */
  lemma {:induction false} UniqueByCovers<T, K>(s: seq<T>, key: T -> K, a: T)
    requires a in s
    ensures exists i :: 0 <= i < |UniqueBy(s, key)| && key(UniqueBy(s, key)[i]) == key(a)
  {
    var r := UniqueBy(s, key);
    if |s| > 1 {
      var init := s[..|s| - 1];
      var x := s[|s| - 1];
      var r0 := UniqueBy(init, key);
      if a == x {
        assert key(r[|r| - 1]) == key(a);
      } else {
        assert a in init;
        UniqueByCovers(init, key, a);
        var i :| 0 <= i < |r0| && key(r0[i]) == key(a);
        assert r[i] == r0[i];
      }
    } else {
      assert key(r[0]) == key(a);
    }
  }

  /** After a sort, `unique` leaves a strictly increasing sequence, provided elements with different
      keys are always comparable and elements with equal keys are not. */
  lemma {:induction false} UniqueOfSortedIsStrict<T(!new), K>(s: seq<T>, lt: (T, T) -> bool, key: T -> K)
    requires StrictOrder(lt) && SortedBy(s, lt)
    requires forall a, b :: key(a) != key(b) ==> lt(a, b) || lt(b, a)
    ensures StrictlySortedBy(UniqueBy(s, key), lt)
  {
    if |s| > 1 {
      var init := s[..|s| - 1];
      var x := s[|s| - 1];
      assert SortedBy(init, lt);
      UniqueOfSortedIsStrict(init, lt, key);
      var r := UniqueBy(init, key);
      if key(r[|r| - 1]) != key(x) {
        var r' := r + [x];
        forall i | 0 <= i < |r| ensures !lt(x, r[i]) {
          UniqueByKeeps(init, key, i);
          var k :| 0 <= k < |init| && init[k] == r[i];
          assert s[k] == r[i];
        }
        assert lt(r[|r| - 1], x);
        forall i, j | 0 <= i < j < |r'| ensures lt(r'[i], r'[j]) {
          if j == |r| && i < |r| - 1 {
            assert lt(r[i], r[|r| - 1]);
          }
        }
      }
    }
  }

  /** A strictly increasing sequence has no repeated element. */
  lemma StrictlySortedDistinct<T(!new)>(s: seq<T>, lt: (T, T) -> bool)
    requires StrictOrder(lt) && StrictlySortedBy(s, lt)
    ensures forall i, j :: 0 <= i < j < |s| ==> s[i] != s[j]
  {
    forall i, j | 0 <= i < j < |s| ensures s[i] != s[j] {
      assert lt(s[i], s[j]);
    }
  }

  /** A sequence without adjacent repetitions is left as it is by `unique`. */
  lemma {:induction false} UniqueByNoAdjacent<T, K>(s: seq<T>, key: T -> K)
    requires forall i :: 0 <= i < |s| - 1 ==> key(s[i]) != key(s[i + 1])
    ensures UniqueBy(s, key) == s
  {
    if |s| > 1 {
      var init := s[..|s| - 1];
      var x := s[|s| - 1];
      forall i | 0 <= i < |init| - 1 ensures key(init[i]) != key(init[i + 1]) {
        assert init[i] == s[i] && init[i + 1] == s[i + 1];
      }
      UniqueByNoAdjacent(init, key);
      assert init[|init| - 1] == s[|s| - 2];
      assert key(init[|init| - 1]) != key(x);
      assert UniqueBy(s, key) == init + [x];
      assert init + [x] == s;
    }
  }

  /** `unique` compares each element with the last one it kept only: an element whose key
      differs from that of the element before it is kept, even when the same key came earlier
      in the list. */
  lemma UniqueKeepsDistantRepeats<T, K>(s: seq<T>, x: T, key: T -> K)
    requires |s| > 0 && key(s[|s| - 1]) != key(x)
    ensures UniqueBy(s + [x], key) == UniqueBy(s, key) + [x]
  {
    assert (s + [x])[..|s|] == s;
  }

  /** ... and an element with the same key as the one before it is dropped, so a run of equal
      neighbours collapses to its first element. */
  lemma UniqueCollapsesRuns<T, K>(s: seq<T>, x: T, key: T -> K)
    requires |s| > 0 && key(s[|s| - 1]) == key(x)
    ensures UniqueBy(s + [x], key) == UniqueBy(s, key)
  {
    assert (s + [x])[..|s|] == s;
  }

  /** An example of both: [1, 2, 1] is kept whole, [1, 1, 2] loses its second 1. */
  lemma UniqueExamples()
    ensures UniqueBy([1, 2, 1], Identity) == [1, 2, 1]
    ensures UniqueBy([1, 1, 2], Identity) == [1, 2]
  {
    UniqueKeepsDistantRepeats([1, 2], 1, Identity);
    assert [1, 2] == [1] + [2];
    UniqueKeepsDistantRepeats([1], 2, Identity);
    assert [1, 2] + [1] == [1, 2, 1];
    UniqueCollapsesRuns([1], 1, Identity);
    assert [1] + [1] == [1, 1];
    UniqueKeepsDistantRepeats([1, 1], 2, Identity);
    assert [1, 1] + [2] == [1, 1, 2];
  }

  function Identity(x: int): int { x }
}
