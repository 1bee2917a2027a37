/** Two counting helpers over a variable number of lists: how many values occur in every list, and at
    how many positions every list holds the same value. */
module Utilities {
  import opened Outcomes

  /** The distinct values of a list. */
  function Elements<T>(s: seq<T>): set<T> {
    set x | x in s
  }

  /** The values present in every one of the lists (none when there are no lists). */
  function Common<T>(lists: seq<seq<T>>): set<T> {
    if lists == [] then {} else set x | x in lists[0] && forall j :: 0 <= j < |lists| ==> x in lists[j]
  }

  /** Every list has the length of the first. */
  predicate SameLengths<T>(lists: seq<seq<T>>) {
    forall j :: 0 <= j < |lists| ==> |lists[j]| == |lists[0]|
  }

  /** Position i exists in every list and every list holds there the value of the first list. */
  predicate MatchesAt<T(==)>(lists: seq<seq<T>>, i: int)
    requires lists != []
  {
    0 <= i < |lists[0]| && forall j :: 0 <= j < |lists| ==> i < |lists[j]| && lists[j][i] == lists[0][i]
  }

  /** The positions at which all lists agree. */
  function MatchingIndexes<T(==)>(lists: seq<seq<T>>): set<int>
    requires lists != []
  {
    set i | 0 <= i < |lists[0]| && MatchesAt(lists, i)
  }

  /** The positions below n at which all lists agree. */
  function MatchingBelow<T(==)>(lists: seq<seq<T>>, n: int): set<int>
    requires lists != []
  {
    set i | 0 <= i < n && 0 <= i < |lists[0]| && MatchesAt(lists, i)
  }

  /** `count_common_elements`: starts from the distinct values of the first list and intersects them with
      each further list in turn; no lists give 0. */
  method CountCommonElements<T(==)>(lists: seq<seq<T>>) returns (count: nat)
    ensures count == |Common(lists)|
  {
    if lists == [] {
      return 0;
    }
    var commonElements := Elements(lists[0]);
    var k := 1;
    while k < |lists|
      invariant 1 <= k <= |lists|
      invariant commonElements == set x | x in lists[0] && forall j :: 0 <= j < k ==> x in lists[j]
    {
      commonElements := commonElements * Elements(lists[k]);
      k := k + 1;
    }
    return |commonElements|;
  }

  /** The smallest length among the lists (`min(len(lst) for lst in lists)`). */
  method MinLength<T>(lists: seq<seq<T>>) returns (m: nat)
    requires lists != []
    ensures exists j :: 0 <= j < |lists| && |lists[j]| == m
    ensures forall j :: 0 <= j < |lists| ==> m <= |lists[j]|
  {
    m := |lists[0]|;
    var k := 1;
    while k < |lists|
      invariant 1 <= k <= |lists|
      invariant exists j :: 0 <= j < k && |lists[j]| == m
      invariant forall j :: 0 <= j < k ==> m <= |lists[j]|
    {
      if |lists[k]| < m {
        m := |lists[k]|;
      }
      k := k + 1;
    }
  }

  /** Whether some list's length differs from m (`any(len(lst) != m for lst in lists)`). */
  method AnyLengthDiffers<T>(lists: seq<seq<T>>, m: nat) returns (b: bool)
    ensures b <==> exists j :: 0 <= j < |lists| && |lists[j]| != m
  {
    var k := 0;
    while k < |lists|
      invariant 0 <= k <= |lists|
      invariant forall j :: 0 <= j < k ==> |lists[j]| == m
    {
      if |lists[k]| != m {
        return true;
      }
      k := k + 1;
    }
    return false;
  }

  /** Whether every list holds the first list's value at position i
      (`all(lst[i] == lists[0][i] for lst in lists)`), stopping at the first that does not. */
  method AllMatchAt<T(==)>(lists: seq<seq<T>>, i: nat) returns (b: bool)
    requires lists != [] && SameLengths(lists) && i < |lists[0]|
    ensures b <==> MatchesAt(lists, i)
  {
    var k := 0;
    while k < |lists|
      invariant 0 <= k <= |lists|
      invariant forall j :: 0 <= j < k ==> lists[j][i] == lists[0][i]
    {
      if lists[k][i] != lists[0][i] {
        return false;
      }
      k := k + 1;
    }
    return true;
  }

  /** `count_matching_indexes`: no lists give 0; lists of different lengths raise ValueError; otherwise
      the number of positions at which every list agrees with the first. */
  method CountMatchingIndexes<T(==)>(lists: seq<seq<T>>) returns (r: Result<nat>)
    ensures lists == [] ==> r == Success(0)
    ensures r.Failure? <==> !SameLengths(lists)
    ensures r.Failure? ==> r.error == ValueError
    ensures r.Success? && lists != [] ==> r.value == |MatchingIndexes(lists)|
  {
    if lists == [] {
      return Success(0);
    }
    var minLength := MinLength(lists);
    var differs := AnyLengthDiffers(lists, minLength);
    if differs {
      return Failure(ValueError);
    }
    var count := 0;
    var i := 0;
    while i < minLength
      invariant 0 <= i <= minLength == |lists[0]|
      invariant count == |MatchingBelow(lists, i)|
    {
      var allMatch := AllMatchAt(lists, i);
      MatchingBelowNext(lists, i);
      if allMatch {
        count := count + 1;
      }
      i := i + 1;
    }
    assert MatchingBelow(lists, i) == MatchingIndexes(lists);
    return Success(count);
  }

  /** Extending the range by position n adds n exactly when the lists agree there. */
  lemma MatchingBelowNext<T>(lists: seq<seq<T>>, n: nat)
    requires lists != [] && n < |lists[0]|
    ensures MatchingBelow(lists, n + 1) == MatchingBelow(lists, n) + (if MatchesAt(lists, n) then {n} else {})
    ensures n !in MatchingBelow(lists, n)
  {
  }

  lemma {:induction false} SubsetCardinality<T>(a: set<T>, b: set<T>)
    requires a <= b
    ensures |a| <= |b|
  {
    if a != {} {
      var x :| x in a;
      SubsetCardinality(a - {x}, b - {x});
    }
  }

  /** A list has at most as many distinct values as elements. */
  lemma {:induction false} ElementsAtMostLength<T>(s: seq<T>)
    ensures |Elements(s)| <= |s|
  {
    if s != [] {
      ElementsAtMostLength(s[1..]);
      assert Elements(s) == Elements(s[1..]) + {s[0]};
    }
  }

  /** The common values are among the distinct values of each list, so there are no more of them than
      the first list has distinct values, or elements. */
  lemma CommonBounded<T>(lists: seq<seq<T>>)
    requires lists != []
    ensures forall j :: 0 <= j < |lists| ==> Common(lists) <= Elements(lists[j])
    ensures |Common(lists)| <= |Elements(lists[0])| <= |lists[0]|
  {
    SubsetCardinality(Common(lists), Elements(lists[0]));
    ElementsAtMostLength(lists[0]);
  }

  /** A single list has all of its distinct values in common with itself. */
  lemma CommonSingle<T>(s: seq<T>)
    ensures Common([s]) == Elements(s)
  {
  }

  /** A value is common exactly when every list contains it, so the order of the lists and repeated
      lists do not change the common values. */
  lemma CommonOrderFree<T>(lists: seq<seq<T>>, lists': seq<seq<T>>)
    requires lists != [] && lists' != []
    requires forall s :: s in lists <==> s in lists'
    ensures Common(lists) == Common(lists')
  {
    forall x | x in Common(lists) ensures x in Common(lists') {
      forall j | 0 <= j < |lists'| ensures x in lists'[j] {
        assert lists'[j] in lists;
        var j' :| 0 <= j' < |lists| && lists[j'] == lists'[j];
      }
    }
    forall x | x in Common(lists') ensures x in Common(lists) {
      forall j | 0 <= j < |lists| ensures x in lists[j] {
        assert lists[j] in lists';
        var j' :| 0 <= j' < |lists'| && lists'[j'] == lists[j];
      }
    }
  }

  /** Below n there are at most n matching positions, and exactly n when the lists agree everywhere
      below n. */
  lemma {:induction false} MatchingBelowCount<T>(lists: seq<seq<T>>, n: nat)
    requires lists != [] && n <= |lists[0]|
    ensures |MatchingBelow(lists, n)| <= n
    ensures (forall i :: 0 <= i < n ==> MatchesAt(lists, i)) ==> |MatchingBelow(lists, n)| == n
  {
    if n > 0 {
      MatchingBelowCount(lists, n - 1);
      MatchingBelowNext(lists, n - 1);
    }
  }

  /** There are no more matching positions than the common length. */
  lemma MatchingBounded<T>(lists: seq<seq<T>>)
    requires lists != []
    ensures |MatchingIndexes(lists)| <= |lists[0]|
  {
    MatchingBelowCount(lists, |lists[0]|);
    assert MatchingBelow(lists, |lists[0]|) == MatchingIndexes(lists);
  }

  /** Identical lists (in particular a single list) match at every position. */
  lemma MatchingIdentical<T>(lists: seq<seq<T>>)
    requires lists != [] && forall j :: 0 <= j < |lists| ==> lists[j] == lists[0]
    ensures SameLengths(lists)
    ensures |MatchingIndexes(lists)| == |lists[0]|
  {
    MatchingBelowCount(lists, |lists[0]|);
    assert MatchingBelow(lists, |lists[0]|) == MatchingIndexes(lists);
  }
}
