/** Python's `list.sort` as a function of the list and an order: a stable insertion sort. */
module Sorting {

  ghost predicate IsOrder<T(!new)>(leq: (T, T) -> bool) {
    && (forall x, y :: leq(x, y) || leq(y, x))
    && (forall x, y, z :: leq(x, y) && leq(y, z) ==> leq(x, z))
  }

  ghost predicate SortedBy<T>(s: seq<T>, leq: (T, T) -> bool) {
    forall k, l :: 0 <= k < l < |s| ==> leq(s[k], s[l])
  }

  /** No element occurs twice. */
  ghost predicate Distinct<T>(s: seq<T>) {
    forall i, j :: 0 <= i < j < |s| ==> s[i] != s[j]
  }

  /** Put x behind the elements that do not exceed it. */
  function Insert<T>(s: seq<T>, x: T, leq: (T, T) -> bool): (r: seq<T>)
    ensures multiset(r) == multiset(s) + multiset{x}
  {
    if s == [] then [x]
    else if leq(s[|s| - 1], x) then s + [x]
    else
      assert s == s[..|s| - 1] + [s[|s| - 1]];
      Insert(s[..|s| - 1], x, leq) + [s[|s| - 1]]
  }

  function Sort<T>(s: seq<T>, leq: (T, T) -> bool): (r: seq<T>)
    ensures multiset(r) == multiset(s)
  {
    if s == [] then []
    else
      assert s == s[..|s| - 1] + [s[|s| - 1]];
      Insert(Sort(s[..|s| - 1], leq), s[|s| - 1], leq)
  }

  lemma {:induction false} InsertSorted<T(!new)>(s: seq<T>, x: T, leq: (T, T) -> bool)
    requires IsOrder(leq) && SortedBy(s, leq)
    ensures SortedBy(Insert(s, x, leq), leq)
  {
    if s != [] {
      var n := |s| - 1;
      if leq(s[n], x) {
        assert forall k :: 0 <= k < n ==> leq(s[k], s[n]);
      } else {
        InsertSorted(s[..n], x, leq);
        var front := Insert(s[..n], x, leq);
        forall k | 0 <= k < |front| ensures leq(front[k], s[n]) {
          assert front[k] in multiset(front);
          assert front[k] in s[..n] || front[k] == x;
        }
      }
    }
  }

  /** Sorting sorts; that it keeps the elements is Sort's own contract. */
  lemma {:induction false} SortSorts<T(!new)>(s: seq<T>, leq: (T, T) -> bool)
    requires IsOrder(leq)
    ensures SortedBy(Sort(s, leq), leq)
  {
    if s != [] {
      SortSorts(s[..|s| - 1], leq);
      InsertSorted(Sort(s[..|s| - 1], leq), s[|s| - 1], leq);
    }
  }

  /** Elements that do not exceed one another stand as before holds of them. */
  ghost predicate Stable<T>(s: seq<T>, leq: (T, T) -> bool, before: (T, T) -> bool) {
    forall k, l :: 0 <= k < l < |s| && leq(s[l], s[k]) ==> before(s[k], s[l])
  }

  lemma {:induction false} InsertStable<T>(s: seq<T>, x: T, leq: (T, T) -> bool, before: (T, T) -> bool)
    requires Stable(s, leq, before) && forall k :: 0 <= k < |s| ==> before(s[k], x)
    ensures Stable(Insert(s, x, leq), leq, before)
  {
    if s != [] {
      var n := |s| - 1;
      if !leq(s[n], x) {
        InsertStable(s[..n], x, leq, before);
        var front := Insert(s[..n], x, leq);
        forall k | 0 <= k < |front| && leq(s[n], front[k]) ensures before(front[k], s[n]) {
          assert front[k] in multiset(front);
          assert front[k] in s[..n];
        }
      }
    }
  }

  /** Sorting is stable: what holds from earlier to later elements still does among equal ones. */
  lemma {:induction false} SortIsStable<T>(s: seq<T>, leq: (T, T) -> bool, before: (T, T) -> bool)
    requires forall k, l :: 0 <= k < l < |s| ==> before(s[k], s[l])
    ensures Stable(Sort(s, leq), leq, before)
  {
    if s != [] {
      var n := |s| - 1;
      SortIsStable(s[..n], leq, before);
      var front := Sort(s[..n], leq);
      forall k | 0 <= k < |front| ensures before(front[k], s[n]) {
        assert front[k] in multiset(front);
        assert front[k] in s[..n];
      }
      InsertStable(front, s[n], leq, before);
    }
  }

  lemma SortKeepsElements<T>(s: seq<T>, leq: (T, T) -> bool)
    ensures |Sort(s, leq)| == |s|
    ensures forall x :: x in Sort(s, leq) <==> x in s
  {
    var r := Sort(s, leq);
    assert |multiset(r)| == |multiset(s)|;
    forall x ensures x in r <==> x in s {
      assert x in multiset(r) <==> x in multiset(s);
    }
  }
}
