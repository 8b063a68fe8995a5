/**
 Stable insertion sort by any total preorder, for sequences whose order the source leaves
 to Python's sorted(), and what makes its result unique.
 */
module Sorting {

  ghost predicate TotalPreorder<T(!new)>(leq: (T, T) -> bool) {
    && (forall a, b :: leq(a, b) || leq(b, a))
    && (forall a, b, c :: leq(a, b) && leq(b, c) ==> leq(a, c))
  }

  ghost predicate SortedBy<T(!new)>(leq: (T, T) -> bool, s: seq<T>) {
    forall i, j :: 0 <= i < j < |s| ==> leq(s[i], s[j])
  }

  /** Put x behind everything that may come before it. */
  function InsertBy<T>(leq: (T, T) -> bool, s: seq<T>, x: T): (r: seq<T>)
    ensures |r| == |s| + 1
  {
    if s == [] || leq(s[|s| - 1], x) then s + [x]
    else InsertBy(leq, s[..|s| - 1], x) + [s[|s| - 1]]
  }

  function SortBy<T>(leq: (T, T) -> bool, s: seq<T>): (r: seq<T>)
    ensures |r| == |s|
  {
    if s == [] then [] else InsertBy(leq, SortBy(leq, s[..|s| - 1]), s[|s| - 1])
  }

  lemma {:induction false} InsertPermutes<T>(leq: (T, T) -> bool, s: seq<T>, x: T)
    ensures multiset(InsertBy(leq, s, x)) == multiset(s) + multiset{x}
  {
    if s != [] && !leq(s[|s| - 1], x) {
      InsertPermutes(leq, s[..|s| - 1], x);
      assert s == s[..|s| - 1] + [s[|s| - 1]];
    }
  }

  lemma {:induction false} InsertSorts<T(!new)>(leq: (T, T) -> bool, s: seq<T>, x: T)
    requires TotalPreorder(leq) && SortedBy(leq, s)
    ensures SortedBy(leq, InsertBy(leq, s, x))
  {
    if s == [] {
    } else if leq(s[|s| - 1], x) {
      assert forall i :: 0 <= i < |s| ==> leq(s[i], s[|s| - 1]);
    } else {
      var n := |s| - 1;
      var before := InsertBy(leq, s[..n], x);
      InsertSorts(leq, s[..n], x);
      InsertPermutes(leq, s[..n], x);
      forall i | 0 <= i < |before|
        ensures leq(before[i], s[n])
      {
        assert before[i] in multiset(before);
      }
    }
  }

  /** The result is sorted and a permutation. */
  lemma {:induction false} SortSorts<T(!new)>(leq: (T, T) -> bool, s: seq<T>)
    requires TotalPreorder(leq)
    ensures SortedBy(leq, SortBy(leq, s)) && multiset(SortBy(leq, s)) == multiset(s)
  {
    if s != [] {
      var n := |s| - 1;
      SortSorts(leq, s[..n]);
      InsertSorts(leq, SortBy(leq, s[..n]), s[n]);
      InsertPermutes(leq, SortBy(leq, s[..n]), s[n]);
      assert s == s[..n] + [s[n]];
    }
  }

  ghost predicate TellsApart<T(!new)>(leq: (T, T) -> bool) {
    forall a, b :: leq(a, b) && leq(b, a) ==> a == b
  }

  lemma WithoutLast<T>(s: seq<T>)
    requires s != []
    ensures multiset(s[..|s| - 1]) == multiset(s) - multiset{s[|s| - 1]}
  {
    assert s == s[..|s| - 1] + [s[|s| - 1]];
  }

  lemma LastIsGreatest<T(!new)>(leq: (T, T) -> bool, s: seq<T>, x: T)
    requires TotalPreorder(leq) && SortedBy(leq, s) && x in multiset(s)
    ensures s != [] && leq(x, s[|s| - 1])
  {
    var i :| 0 <= i < |s| && s[i] == x;
    assert leq(x, x);
  }

  /** Sorted by an order that tells different elements apart, a multiset has one listing. */
  lemma {:induction false} SortedIsUnique<T(!new)>(leq: (T, T) -> bool, s: seq<T>, t: seq<T>)
    requires TotalPreorder(leq) && TellsApart(leq)
    requires SortedBy(leq, s) && SortedBy(leq, t) && multiset(s) == multiset(t)
    ensures s == t
  {
    if s == [] {
      assert |multiset(t)| == 0;
    } else {
      var n := |s| - 1;
      LastIsGreatest(leq, t, s[n]);
      LastIsGreatest(leq, s, t[|t| - 1]);
      WithoutLast(s);
      WithoutLast(t);
      SortedIsUnique(leq, s[..n], t[..|t| - 1]);
      assert s == s[..n] + [s[n]] && t == t[..|t| - 1] + [t[|t| - 1]];
    }
  }
}

