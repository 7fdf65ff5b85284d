/** Python's `bisect`: the two binary searches, as functions of the list and the key. */
module Bisect {

  predicate Sorted(s: seq<int>) {
    forall k, l :: 0 <= k < l < |s| ==> s[k] <= s[l]
  }

  /** at separates the smaller elements from the rest. */
  ghost predicate SplitsBelow(s: seq<int>, x: int, at: nat) {
    && at <= |s|
    && (forall k :: 0 <= k < at ==> s[k] < x)
    && (forall k :: at <= k < |s| ==> x <= s[k])
  }

  /** at separates the elements up to x from the larger ones. */
  ghost predicate SplitsAbove(s: seq<int>, x: int, at: nat) {
    && at <= |s|
    && (forall k :: 0 <= k < at ==> s[k] <= x)
    && (forall k :: at <= k < |s| ==> x < s[k])
  }

  function SearchLeft(s: seq<int>, x: int, lo: nat, hi: nat): (at: nat)
    requires lo <= hi <= |s|
    ensures lo <= at <= hi
    ensures Sorted(s) && (forall k :: 0 <= k < lo ==> s[k] < x) && (forall k :: hi <= k < |s| ==> x <= s[k])
            ==> SplitsBelow(s, x, at)
    decreases hi - lo
  {
    if lo == hi then lo
    else
      var mid := (lo + hi) / 2;
      if s[mid] < x then SearchLeft(s, x, mid + 1, hi) else SearchLeft(s, x, lo, mid)
  }

  function SearchRight(s: seq<int>, x: int, lo: nat, hi: nat): (at: nat)
    requires lo <= hi <= |s|
    ensures lo <= at <= hi
    ensures Sorted(s) && (forall k :: 0 <= k < lo ==> s[k] <= x) && (forall k :: hi <= k < |s| ==> x < s[k])
            ==> SplitsAbove(s, x, at)
    decreases hi - lo
  {
    if lo == hi then lo
    else
      var mid := (lo + hi) / 2;
      if x < s[mid] then SearchRight(s, x, lo, mid) else SearchRight(s, x, mid + 1, hi)
  }

  /** On a list that is not sorted only an index within the list is promised. */
  function BisectLeft(s: seq<int>, x: int): (at: nat)
    ensures at <= |s|
    ensures Sorted(s) ==> SplitsBelow(s, x, at)
  {
    SearchLeft(s, x, 0, |s|)
  }

  function BisectRight(s: seq<int>, x: int): (at: nat)
    ensures at <= |s|
    ensures Sorted(s) ==> SplitsAbove(s, x, at)
  {
    SearchRight(s, x, 0, |s|)
  }
}
