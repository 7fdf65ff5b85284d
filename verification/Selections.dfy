/** What Python's list comprehensions with a condition leave of a list. */
module Selections {

  /** r holds exactly the elements of l that are wanted, in their order; at are their positions. */
  ghost predicate SelectsAt<T>(l: seq<T>, r: seq<T>, wanted: T -> bool, at: seq<nat>) {
    && |at| == |r|
    && (forall k :: 0 <= k < |at| ==> at[k] < |l| && r[k] == l[at[k]] && wanted(r[k]))
    && (forall j, k :: 0 <= j < k < |at| ==> at[j] < at[k])
    && (forall j :: 0 <= j < |l| && wanted(l[j]) ==> j in at)
  }

  ghost predicate IsSelection<T>(l: seq<T>, r: seq<T>, wanted: T -> bool) {
    exists at :: SelectsAt(l, r, wanted, at)
  }

  lemma SelectsNext<T>(l: seq<T>, r: seq<T>, wanted: T -> bool, at: seq<nat>)
    requires l != [] && SelectsAt(l[..|l| - 1], r, wanted, at) && wanted(l[|l| - 1])
    ensures IsSelection(l, r + [l[|l| - 1]], wanted)
  {
    var n := |l| - 1;
    var more := at + [n];
    assert more[|at|] == n;
    forall j | 0 <= j < |l| && wanted(l[j]) ensures j in more {
      if j < n {
        assert wanted(l[..n][j]);
        assert j in at;
      }
    }
    assert SelectsAt(l, r + [l[n]], wanted, more);
  }

  lemma SelectsSkip<T>(l: seq<T>, r: seq<T>, wanted: T -> bool, at: seq<nat>)
    requires l != [] && SelectsAt(l[..|l| - 1], r, wanted, at) && !wanted(l[|l| - 1])
    ensures IsSelection(l, r, wanted)
  {
    forall j | 0 <= j < |l| && wanted(l[j]) ensures j in at {
      assert wanted(l[..|l| - 1][j]);
    }
    assert SelectsAt(l, r, wanted, at);
  }

  lemma SelectsNone<T>(wanted: T -> bool)
    ensures IsSelection([], [], wanted)
  {
    assert SelectsAt([], [], wanted, []);
  }
}
