/** Stable sorting and filtering of sequences.

    The router, the snapshot collector and the image cache all call the standard library's
    stable `sort_by`.  `StableSort` says what that call returns, for ascending integer keys. */
module Sorting {

  ghost predicate SortedBy<T>(s: seq<T>, key: T -> int) {
    forall i, j | 0 <= i < j < |s| :: key(s[i]) <= key(s[j])
  }

  ghost predicate Distinct<T>(s: seq<T>) {
    forall i, j | 0 <= i < j < |s| :: s[i] != s[j]
  }

  function Filter<T>(s: seq<T>, keep: T -> bool): seq<T> {
    if s == [] then []
    else
      var rest := Filter(s[..|s| - 1], keep);
      if keep(s[|s| - 1]) then rest + [s[|s| - 1]] else rest
  }

  lemma FilterMember<T>(s: seq<T>, keep: T -> bool, x: T)
    ensures x in Filter(s, keep) <==> x in s && keep(x)
  {
    if s != [] {
      FilterMember(s[..|s| - 1], keep, x);
      assert s == s[..|s| - 1] + [s[|s| - 1]];
    }
  }

  /** Inserts x behind every element whose key is not larger. */
  function Insert<T>(s: seq<T>, x: T, key: T -> int): seq<T> {
    if s == [] || key(s[|s| - 1]) <= key(x) then s + [x]
    else Insert(s[..|s| - 1], x, key) + [s[|s| - 1]]
  }

  function StableSort<T>(s: seq<T>, key: T -> int): seq<T> {
    if s == [] then [] else Insert(StableSort(s[..|s| - 1], key), s[|s| - 1], key)
  }

  lemma InsertPermutes<T>(s: seq<T>, x: T, key: T -> int)
    ensures multiset(Insert(s, x, key)) == multiset(s) + multiset{x}
    ensures |Insert(s, x, key)| == |s| + 1
  {
    if s == [] || key(s[|s| - 1]) <= key(x) {
    } else {
      assert s == s[..|s| - 1] + [s[|s| - 1]];
      InsertPermutes(s[..|s| - 1], x, key);
    }
  }

  lemma SortPermutes<T>(s: seq<T>, key: T -> int)
    ensures multiset(StableSort(s, key)) == multiset(s)
    ensures |StableSort(s, key)| == |s|
  {
    if s != [] {
      assert s == s[..|s| - 1] + [s[|s| - 1]];
      SortPermutes(s[..|s| - 1], key);
      InsertPermutes(StableSort(s[..|s| - 1], key), s[|s| - 1], key);
    }
  }

  lemma InsertKeepsSorted<T>(s: seq<T>, x: T, key: T -> int)
    requires SortedBy(s, key)
    ensures SortedBy(Insert(s, x, key), key)
  {
    if s == [] || key(s[|s| - 1]) <= key(x) {
    } else {
      var front, last := s[..|s| - 1], s[|s| - 1];
      InsertKeepsSorted(front, x, key);
      var r := Insert(front, x, key);
      InsertPermutes(front, x, key);
      forall i | 0 <= i < |r| ensures key(r[i]) <= key(last) {
        assert r[i] in multiset(r);
        assert r[i] == x || r[i] in front;
      }
    }
  }

  lemma SortIsSorted<T>(s: seq<T>, key: T -> int)
    ensures SortedBy(StableSort(s, key), key)
  {
    if s != [] {
      SortIsSorted(s[..|s| - 1], key);
      InsertKeepsSorted(StableSort(s[..|s| - 1], key), s[|s| - 1], key);
    }
  }

  lemma SortOfSorted<T>(s: seq<T>, key: T -> int)
    requires SortedBy(s, key)
    ensures StableSort(s, key) == s
  {
    if s != [] {
      var front := s[..|s| - 1];
      SortOfSorted(front, key);
      assert s == front + [s[|s| - 1]];
    }
  }

  /** Sorting after each push is sorting once: the sort already in place is not disturbed. */
  lemma {:induction false} SortAfterPush<T>(s: seq<T>, x: T, key: T -> int)
    ensures StableSort(StableSort(s, key) + [x], key) == StableSort(s + [x], key)
  {
    SortIsSorted(s, key);
    SortOfSorted(StableSort(s, key), key);
    assert (StableSort(s, key) + [x])[..|StableSort(s, key)|] == StableSort(s, key);
    assert (s + [x])[..|s|] == s;
  }

  lemma {:induction false} FilterPush<T>(s: seq<T>, x: T, keep: T -> bool)
    ensures Filter(s + [x], keep) == Filter(s, keep) + (if keep(x) then [x] else [])
  {
    assert (s + [x])[..|s|] == s;
  }

  lemma FilterAppend<T>(a: seq<T>, b: seq<T>, keep: T -> bool)
    ensures Filter(a + b, keep) == Filter(a, keep) + Filter(b, keep)
  {
    if b == [] {
      assert a + b == a;
    } else {
      var front, last := b[..|b| - 1], b[|b| - 1];
      FilterAppend(a, front, keep);
      assert a + b == (a + front) + [last];
      FilterPush(a + front, last, keep);
    }
  }

  lemma FilterInsert<T>(s: seq<T>, x: T, key: T -> int, keep: T -> bool)
    requires SortedBy(s, key)
    ensures Filter(Insert(s, x, key), keep)
         == if keep(x) then Insert(Filter(s, keep), x, key) else Filter(s, keep)
  {
    if s == [] || key(s[|s| - 1]) <= key(x) {
      FilterPush(s, x, keep);
      var f := Filter(s, keep);
      if f != [] {
        FilterMember(s, keep, f[|f| - 1]);
      }
    } else {
      var front, last := s[..|s| - 1], s[|s| - 1];
      FilterInsert(front, x, key, keep);
      FilterPush(Insert(front, x, key), last, keep);
      if keep(last) {
        assert (Filter(front, keep) + [last])[..|Filter(front, keep)|] == Filter(front, keep);
      } else if keep(x) {
        assert Filter(s, keep) == Filter(front, keep);
      }
    }
  }

  /** Removing elements from a stably sorted list is sorting what is left: ties keep their order. */
  lemma FilterSort<T>(s: seq<T>, key: T -> int, keep: T -> bool)
    ensures Filter(StableSort(s, key), keep) == StableSort(Filter(s, keep), key)
  {
    if s != [] {
      var front, last := s[..|s| - 1], s[|s| - 1];
      FilterSort(front, key, keep);
      SortIsSorted(front, key);
      FilterInsert(StableSort(front, key), last, key, keep);
      if keep(last) {
        assert (Filter(front, keep) + [last])[..|Filter(front, keep)|] == Filter(front, keep);
      }
    }
  }

  lemma DistinctCounts<T>(s: seq<T>, x: T)
    requires Distinct(s) && x in s
    ensures multiset(s)[x] == 1
  {
    var front, last := s[..|s| - 1], s[|s| - 1];
    assert s == front + [last];
    if x in front {
      DistinctCounts(front, x);
    }
  }

  lemma {:induction false} RepeatCounts<T>(s: seq<T>, i: nat, j: nat)
    requires i < j < |s| && s[i] == s[j]
    ensures multiset(s)[s[i]] >= 2
  {
    assert s == s[..j] + s[j..];
    assert s[..j][i] in multiset(s[..j]) && s[j..][0] in multiset(s[j..]);
  }

  lemma {:induction false} PermutationIsDistinct<T>(s: seq<T>, t: seq<T>)
    requires Distinct(s) && multiset(s) == multiset(t)
    ensures Distinct(t)
  {
    forall i, j | 0 <= i < j < |t| ensures t[i] != t[j] {
      if t[i] == t[j] {
        RepeatCounts(t, i, j);
        assert t[i] in multiset(s);
        DistinctCounts(s, t[i]);
        assert false;
      }
    }
  }

  ghost function Elements<T>(s: seq<T>): set<T> { set x | x in s }

  lemma DistinctSize<T>(s: seq<T>)
    ensures |Elements(s)| <= |s|
    ensures Distinct(s) ==> |Elements(s)| == |s|
  {
    if s != [] {
      var front, last := s[..|s| - 1], s[|s| - 1];
      assert s == front + [last];
      DistinctSize(front);
      assert Elements(s) == Elements(front) + {last};
    }
  }
}
