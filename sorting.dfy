/** The stable sort used by the client's `sortData` (`Array.prototype.sort`
    with a comparator) and by the `$sort` stage of the top-companies
    aggregation: insertion from the back, so that an element is placed
    after every element it does not precede. */
module Sorting {

  /** `le` orders every pair and is transitive. */
  ghost predicate TotalPreorder<T(!new)>(le: (T, T) -> bool) {
    && (forall a, b :: le(a, b) || le(b, a))
    && (forall a, b, c :: le(a, b) && le(b, c) ==> le(a, c))
  }

  predicate SortedBy<T>(s: seq<T>, le: (T, T) -> bool) {
    forall i, j :: 0 <= i < j < |s| ==> le(s[i], s[j])
  }

  /** Inserts `x` into `s` just after the last element that may precede it. */
  function InsertBy<T>(s: seq<T>, x: T, le: (T, T) -> bool): seq<T>
    decreases |s|
  {
    if s == [] || le(s[|s| - 1], x) then s + [x]
    else InsertBy(s[..|s| - 1], x, le) + [s[|s| - 1]]
  }

  /** Insertion sort: each element in turn is inserted into the sorted prefix. */
  function SortBy<T>(s: seq<T>, le: (T, T) -> bool): seq<T>
    decreases |s|
  {
    if s == [] then [] else InsertBy(SortBy(s[..|s| - 1], le), s[|s| - 1], le)
  }

  lemma {:induction false} InsertByPermutes<T>(s: seq<T>, x: T, le: (T, T) -> bool)
    ensures multiset(InsertBy(s, x, le)) == multiset(s) + multiset{x}
    decreases |s|
  {
    if s != [] && !le(s[|s| - 1], x) {
      var init, last := s[..|s| - 1], s[|s| - 1];
      InsertByPermutes(init, x, le);
      assert s == init + [last];
    }
  }

  lemma {:induction false} InsertBySorted<T(!new)>(s: seq<T>, x: T, le: (T, T) -> bool)
    requires TotalPreorder(le) && SortedBy(s, le)
    ensures SortedBy(InsertBy(s, x, le), le)
    decreases |s|
  {
    if s == [] || le(s[|s| - 1], x) {
      var r := s + [x];
      forall i, j | 0 <= i < j < |r| ensures le(r[i], r[j]) {
        if j == |s| && i < |s| - 1 {
          assert le(s[i], s[|s| - 1]);
        }
      }
    } else {
      var init, last := s[..|s| - 1], s[|s| - 1];
      assert le(x, last);
      InsertBySorted(init, x, le);
      InsertByPermutes(init, x, le);
      var mid := InsertBy(init, x, le);
      forall i | 0 <= i < |mid| ensures le(mid[i], last) {
        assert mid[i] in multiset(init) + multiset{x};
        if mid[i] != x {
          assert mid[i] in init;
          var k :| 0 <= k < |init| && init[k] == mid[i];
          assert s[k] == init[k];
        }
      }
    }
  }

  /** The sort returns a permutation of its input ... */
  lemma {:induction false} SortByPermutes<T>(s: seq<T>, le: (T, T) -> bool)
    ensures multiset(SortBy(s, le)) == multiset(s)
    ensures |SortBy(s, le)| == |s|
    decreases |s|
  {
    if s != [] {
      var init := s[..|s| - 1];
      SortByPermutes(init, le);
      InsertByPermutes(SortBy(init, le), s[|s| - 1], le);
      assert s == init + [s[|s| - 1]];
    }
  }

  /** ... in order, when the comparator is a total preorder. */
  lemma {:induction false} SortBySorted<T(!new)>(s: seq<T>, le: (T, T) -> bool)
    requires TotalPreorder(le)
    ensures SortedBy(SortBy(s, le), le)
    decreases |s|
  {
    if s != [] {
      SortBySorted(s[..|s| - 1], le);
      InsertBySorted(SortBy(s[..|s| - 1], le), s[|s| - 1], le);
    }
  }

  /** A list already in order is returned as it is: the sort moves only
      elements that are out of order. */
  lemma {:induction false} SortBySortedFixed<T>(s: seq<T>, le: (T, T) -> bool)
    requires SortedBy(s, le)
    ensures SortBy(s, le) == s
    decreases |s|
  {
    if s != [] {
      var init := s[..|s| - 1];
      assert SortedBy(init, le);
      SortBySortedFixed(init, le);
      assert s == init + [s[|s| - 1]];
      if |init| > 0 {
        assert le(s[|s| - 2], s[|s| - 1]);
      }
    }
  }

  /** Sorting twice gives what sorting once gives. */
  lemma SortByIdempotent<T(!new)>(s: seq<T>, le: (T, T) -> bool)
    requires TotalPreorder(le)
    ensures SortBy(SortBy(s, le), le) == SortBy(s, le)
  {
    SortBySorted(s, le);
    SortBySortedFixed(SortBy(s, le), le);
  }

  /** Of a sorted list, every element kept by `s[..k]` may precede every
      element it drops. */
  lemma TakeIsTop<T>(s: seq<T>, le: (T, T) -> bool, k: nat, x: T, y: T)
    requires SortedBy(s, le) && k <= |s|
    requires x in s[..k] && y in s[k..]
    ensures le(x, y)
  {
    var i :| 0 <= i < k && s[..k][i] == x;
    var j :| 0 <= j < |s| - k && s[k..][j] == y;
    assert s[i] == x && s[k + j] == y;
  }
}
