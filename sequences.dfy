/** Sums, descending sort and counting over sequences: the list helpers
    (`sum`, `sorted(..., reverse=True)`, filtering comprehensions) that the Python code
    leans on, with the facts the models need about them. */
module Sequences {

  /** Python's `sum` over exact rationals (the order of additions does not matter). */
  function Sum(s: seq<real>): real {
    if s == [] then 0.0 else s[0] + Sum(s[1..])
  }

  lemma {:induction false} SumAppend(a: seq<real>, b: seq<real>)
    ensures Sum(a + b) == Sum(a) + Sum(b)
  {
    if a == [] {
      assert a + b == b;
    } else {
      assert (a + b)[1..] == a[1..] + b;
      SumAppend(a[1..], b);
    }
  }

  /** The sum of a sequence of non-negative values is non-negative. */
  lemma {:induction false} SumNonNegative(s: seq<real>)
    requires forall i :: 0 <= i < |s| ==> s[i] >= 0.0
    ensures Sum(s) >= 0.0
  {
    if s != [] {
      SumNonNegative(s[1..]);
    }
  }

  predicate SortedDescending(s: seq<real>) {
    forall i, j :: 0 <= i < j < |s| ==> s[i] >= s[j]
  }

  /** Places `x` before the first element it is not smaller than. */
  function Insert(x: real, s: seq<real>): seq<real> {
    if s == [] || x >= s[0] then [x] + s else [s[0]] + Insert(x, s[1..])
  }

  /** `sorted(s, reverse=True)` on rationals. */
  function SortDescending(s: seq<real>): seq<real> {
    if s == [] then [] else Insert(s[0], SortDescending(s[1..]))
  }

  /** Every element of `s` is at most `bound`. */
  predicate AllAtMost(s: seq<real>, bound: real) {
    forall i :: 0 <= i < |s| ==> s[i] <= bound
  }

  lemma {:induction false} InsertAtMost(x: real, s: seq<real>, bound: real)
    requires x <= bound && AllAtMost(s, bound)
    ensures AllAtMost(Insert(x, s), bound)
  {
    if s != [] && x < s[0] {
      InsertAtMost(x, s[1..], bound);
    }
  }

  lemma {:induction false} InsertPermutes(x: real, s: seq<real>)
    ensures multiset(Insert(x, s)) == multiset(s) + multiset{x}
    ensures |Insert(x, s)| == |s| + 1
  {
    if s != [] && x < s[0] {
      InsertPermutes(x, s[1..]);
      assert s == [s[0]] + s[1..];
      assert Insert(x, s) == [s[0]] + Insert(x, s[1..]);
    }
  }

  lemma {:induction false} InsertSorted(x: real, s: seq<real>)
    requires SortedDescending(s)
    ensures SortedDescending(Insert(x, s))
  {
    if s != [] && x < s[0] {
      var t := Insert(x, s[1..]);
      SortedTail(s);
      InsertSorted(x, s[1..]);
      assert AllAtMost(s[1..], s[0]) by {
        forall i | 0 <= i < |s| - 1 ensures s[1..][i] <= s[0] {
          assert s[1..][i] == s[i + 1];
        }
      }
      InsertAtMost(x, s[1..], s[0]);
      var r := [s[0]] + t;
      assert Insert(x, s) == r;
      forall i, j | 0 <= i < j < |r|
        ensures r[i] >= r[j]
      {
        assert r[j] == t[j - 1];
        if i > 0 {
          assert r[i] == t[i - 1];
        }
      }
    }
  }

  lemma InsertCorrect(x: real, s: seq<real>)
    requires SortedDescending(s)
    ensures SortedDescending(Insert(x, s))
    ensures multiset(Insert(x, s)) == multiset(s) + multiset{x}
    ensures |Insert(x, s)| == |s| + 1
  {
    InsertSorted(x, s);
    InsertPermutes(x, s);
  }

  /** The sort yields a descending permutation of its input. */
  lemma {:induction false} SortDescendingCorrect(s: seq<real>)
    ensures SortedDescending(SortDescending(s))
    ensures multiset(SortDescending(s)) == multiset(s)
    ensures |SortDescending(s)| == |s|
  {
    if s != [] {
      SortDescendingCorrect(s[1..]);
      InsertCorrect(s[0], SortDescending(s[1..]));
      assert s == [s[0]] + s[1..];
    }
  }

  lemma {:induction false} SumInsert(x: real, s: seq<real>)
    ensures Sum(Insert(x, s)) == x + Sum(s)
  {
    if s != [] && x >= s[0] {
      assert ([x] + s)[1..] == s;
    } else if s != [] {
      SumInsert(x, s[1..]);
      assert ([s[0]] + Insert(x, s[1..]))[1..] == Insert(x, s[1..]);
    } else {
      assert [x][1..] == [];
    }
  }

  /** Sorting does not change the sum. */
  lemma {:induction false} SumSortDescending(s: seq<real>)
    ensures Sum(SortDescending(s)) == Sum(s)
  {
    if s != [] {
      SumSortDescending(s[1..]);
      SumInsert(s[0], SortDescending(s[1..]));
    }
  }

  /** The head of a descending sequence is its largest element. */
  lemma SortedHeadIsMax(s: seq<real>, y: real)
    requires SortedDescending(s) && y in s
    ensures y <= s[0]
  {
    var j :| 0 <= j < |s| && s[j] == y;
  }

  lemma SortedTail(s: seq<real>)
    requires SortedDescending(s) && s != []
    ensures SortedDescending(s[1..])
  {
    forall i, j | 0 <= i < j < |s| - 1
      ensures s[1..][i] >= s[1..][j]
    {
      assert s[1..][i] == s[i + 1] && s[1..][j] == s[j + 1];
    }
  }

  /** A descending arrangement of a multiset of rationals is unique, so any correct sort,
      stable or not, gives the same sequence as SortDescending. */
  lemma {:induction false} SortedDescendingUnique(a: seq<real>, b: seq<real>)
    requires SortedDescending(a) && SortedDescending(b)
    requires multiset(a) == multiset(b)
    ensures a == b
  {
    assert |a| == |multiset(a)| && |b| == |multiset(b)|;
    if a != [] {
      assert a[0] == b[0] by {
        assert b[0] in multiset(a) && a[0] in multiset(b);
        SortedHeadIsMax(a, b[0]);
        SortedHeadIsMax(b, a[0]);
      }
      assert multiset(a[1..]) == multiset(b[1..]) by {
        assert a == [a[0]] + a[1..];
        assert b == [b[0]] + b[1..];
        assert multiset(a[1..]) == multiset(a) - multiset{a[0]};
        assert multiset(b[1..]) == multiset(b) - multiset{b[0]};
      }
      SortedTail(a);
      SortedTail(b);
      SortedDescendingUnique(a[1..], b[1..]);
      assert a == [a[0]] + a[1..];
      assert b == [b[0]] + b[1..];
    }
  }

  /** No element occurs twice. */
  predicate Distinct<T(==)>(s: seq<T>) {
    forall i, j :: 0 <= i < j < |s| ==> s[i] != s[j]
  }

  /** In a list without repeats every element occurs once. */
  lemma {:induction false} DistinctOccursOnce<T>(s: seq<T>)
    requires Distinct(s)
    ensures forall x :: multiset(s)[x] <= 1
  {
    if s != [] {
      assert s == [s[0]] + s[1..];
      DistinctOccursOnce(s[1..]);
      forall k | 0 <= k < |s| - 1
        ensures s[1..][k] != s[0]
      {
        assert s[1..][k] == s[k + 1];
      }
      assert s[0] !in s[1..];
    }
  }

  /** A list in which every element occurs at most once has no repeats. */
  lemma OnceIsDistinct<T>(s: seq<T>)
    requires forall x :: multiset(s)[x] <= 1
    ensures Distinct(s)
  {
    forall i, j | 0 <= i < j < |s|
      ensures s[i] != s[j]
    {
      RepeatCountsTwice(s, i, j);
    }
  }

  /** An element found at two positions occurs at least twice. */
  lemma RepeatCountsTwice<T>(s: seq<T>, i: nat, j: nat)
    requires i < j < |s|
    ensures s[i] == s[j] ==> multiset(s)[s[i]] >= 2
  {
    assert s == s[..j] + s[j..];
    assert s[i] in multiset(s[..j]) by {
      assert s[..j][i] == s[i];
    }
    assert s[j] in multiset(s[j..]) by {
      assert s[j..][0] == s[j];
    }
    assert multiset(s) == multiset(s[..j]) + multiset(s[j..]);
  }

  /** Having no repeats depends only on the elements and their numbers, not on the order. */
  lemma DistinctPermutation<T>(a: seq<T>, b: seq<T>)
    requires Distinct(a) && multiset(a) == multiset(b)
    ensures Distinct(b)
  {
    DistinctOccursOnce(a);
    OnceIsDistinct(b);
  }

  /** The two halves of a list without repeats have no repeats and nothing in common. */
  lemma DistinctSplit<T>(a: seq<T>, b: seq<T>)
    requires Distinct(a + b)
    ensures Distinct(a) && Distinct(b)
    ensures forall i, j :: 0 <= i < |a| && 0 <= j < |b| ==> a[i] != b[j]
    ensures forall x :: x in b ==> x !in a
  {
    forall i, j | 0 <= i < |a| && 0 <= j < |b|
      ensures a[i] != b[j]
    {
      assert (a + b)[i] == a[i] && (a + b)[|a| + j] == b[j];
    }
    forall i, j | 0 <= i < j < |b|
      ensures b[i] != b[j]
    {
      assert (a + b)[|a| + i] == b[i] && (a + b)[|a| + j] == b[j];
    }
    forall i, j | 0 <= i < j < |a|
      ensures a[i] != a[j]
    {
      assert (a + b)[i] == a[i] && (a + b)[j] == a[j];
    }
  }

  /** The number of elements equal to `x`. */
  function Count<T(==)>(s: seq<T>, x: T): nat {
    if s == [] then 0 else (if s[0] == x then 1 else 0) + Count(s[1..], x)
  }

  /** `k` copies of `x` added up; kept apart from `*` so that equal counts match as terms. */
  function Times(k: nat, x: real): real {
    if k == 0 then 0.0 else x + Times(k - 1, x)
  }

  lemma {:induction false} TimesIsProduct(k: nat, x: real)
    ensures Times(k, x) == k as real * x
  {
    if k > 0 {
      TimesIsProduct(k - 1, x);
    }
  }

  lemma {:induction false} TimesAdd(k: nat, a: real, b: real)
    ensures Times(k, a) + Times(k, b) == Times(k, a + b)
  {
    if k > 0 {
      TimesAdd(k - 1, a, b);
    }
  }
}
