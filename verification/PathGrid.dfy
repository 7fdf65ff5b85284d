/**
 The cell types of `classify` in tools/path/path_oracle.py: standing water at the corners, and the two
 pinch passes.
 */
module PathGrid {
  import opened Options

  datatype Cell = Clear | Water | Cliff | Rubble | Obstacle | BridgeImpassable | Impassable | DeepWater

  // ----- the corners of one cell

  /** How deep the water stands at a corner; None where no surface covers it or none lies above the ground. */
  type Corner = Option<real>

  predicate Decides(c: Corner, wade: real, deep: real) {
    c.Some? && (c.value > wade || c.value > deep)
  }

  /** What a deciding corner makes of the cell. */
  function Verdict(c: Corner, deep: real): Cell
    requires c.Some?
  {
    if c.value > deep then DeepWater else Water
  }

  ghost predicate NoneDecides(corners: seq<Corner>, wade: real, deep: real) {
    forall k :: 0 <= k < |corners| ==> !Decides(corners[k], wade, deep)
  }

  /** The cell is left as it was, or the last corner that decides has decided. */
  ghost predicate LastDecides(corners: seq<Corner>, wade: real, deep: real, before: Cell, t: Cell) {
    || (NoneDecides(corners, wade, deep) && t == before)
    || (exists k :: IsLast(corners, wade, deep, k) && t == Verdict(corners[k], deep))
  }

  ghost predicate IsLast(corners: seq<Corner>, wade: real, deep: real, k: int) {
    0 <= k < |corners| && Decides(corners[k], wade, deep) && NoneDecides(corners[k + 1..], wade, deep)
  }

  /** The loop over the four corners: not the deepest corner counts but the last one that qualifies. */
  method CornerType(corners: seq<Corner>, wade: real, deep: real, before: Cell) returns (t: Cell)
    ensures LastDecides(corners, wade, deep, before, t)
  {
    t := before;
    var i := 0;
    while i < |corners|
      invariant 0 <= i <= |corners|
      invariant LastDecides(corners[..i], wade, deep, before, t)
    {
      ghost var was := t;
      if corners[i].Some? {
        var depth := corners[i].value;
        if depth > wade {
          t := Water;
        }
        if depth > deep {
          t := DeepWater;
        }
      }
      CornerStep(corners[..i], corners[i], wade, deep, before, was, t);
      assert corners[..i + 1] == corners[..i] + [corners[i]];
      i := i + 1;
    }
    assert corners[..i] == corners;
  }

  lemma CornerStep(done: seq<Corner>, c: Corner, wade: real, deep: real, before: Cell, t: Cell, u: Cell)
    requires LastDecides(done, wade, deep, before, t)
    requires u == if Decides(c, wade, deep) then Verdict(c, deep) else t
    ensures LastDecides(done + [c], wade, deep, before, u)
  {
    var all := done + [c];
    if Decides(c, wade, deep) {
      assert all[|done| + 1..] == [];
      assert IsLast(all, wade, deep, |done|) && all[|done|] == c;
    } else if k :| IsLast(done, wade, deep, k) && t == Verdict(done[k], deep) {
      assert all[k + 1..] == done[k + 1..] + [c];
      assert all[k] == done[k];
      NoneAppended(done[k + 1..], c, wade, deep);
      assert IsLast(all, wade, deep, k);
    } else {
      NoneAppended(done, c, wade, deep);
    }
  }

  lemma NoneAppended(done: seq<Corner>, c: Corner, wade: real, deep: real)
    requires NoneDecides(done, wade, deep) && !Decides(c, wade, deep)
    ensures NoneDecides(done + [c], wade, deep)
  {
  }

  lemma LastIsOne(corners: seq<Corner>, wade: real, deep: real, k: int, l: int)
    requires IsLast(corners, wade, deep, k) && IsLast(corners, wade, deep, l)
    ensures k == l
  {
    AfterLast(corners, wade, deep, k);
    AfterLast(corners, wade, deep, l);
  }

  lemma AfterLast(corners: seq<Corner>, wade: real, deep: real, k: int)
    requires IsLast(corners, wade, deep, k)
    ensures forall l :: k < l < |corners| ==> !Decides(corners[l], wade, deep)
  {
    forall l | k < l < |corners| ensures !Decides(corners[l], wade, deep) {
      assert corners[k + 1..][l - k - 1] == corners[l];
    }
  }

  ghost predicate IsDeepest(corners: seq<Corner>, k: int) {
    0 <= k < |corners| && corners[k].Some? && forall c :: c in corners && c.Some? ==> c.value <= corners[k].value
  }

  /** The rule one might expect: the cell is left as it was, or its deepest corner decides. */
  ghost predicate DeepestDecides(corners: seq<Corner>, wade: real, deep: real, before: Cell, t: Cell) {
    || (NoneDecides(corners, wade, deep) && t == before)
    || (exists k :: IsDeepest(corners, k) && Decides(corners[k], wade, deep) && t == Verdict(corners[k], deep))
  }

  predicate IsDeep(c: Corner, deep: real) {
    c.Some? && c.value > deep
  }

  ghost predicate LastIsDeep(corners: seq<Corner>, wade: real, deep: real) {
    exists k :: IsLast(corners, wade, deep, k) && IsDeep(corners[k], deep)
  }

  ghost predicate NoneIsDeep(corners: seq<Corner>, deep: real) {
    forall c :: c in corners ==> !IsDeep(c, deep)
  }

  lemma {:induction false} DeepestExists(corners: seq<Corner>, i: nat) returns (k: nat)
    requires i < |corners| && corners[i].Some?
    ensures IsDeepest(corners, k)
  {
    var n := |corners| - 1;
    var front := corners[..n];
    assert corners == front + [corners[n]];
    if j :| 0 <= j < n && corners[j].Some? {
      k := DeepestExists(front, j);
      if corners[n].Some? && corners[n].value > front[k].value {
        k := n;
      }
    } else {
      k := n;
    }
  }

  /** The verdict of a deepest corner is deep water exactly when some corner is deep. */
  lemma DeepestVerdict(corners: seq<Corner>, wade: real, deep: real, k: int)
    requires IsDeepest(corners, k)
    ensures IsDeep(corners[k], deep) <==> !NoneIsDeep(corners, deep)
    ensures !NoneDecides(corners, wade, deep) ==> Decides(corners[k], wade, deep)
  {
    if !NoneDecides(corners, wade, deep) {
      var j :| 0 <= j < |corners| && Decides(corners[j], wade, deep);
      assert corners[j] in corners;
    }
    assert corners[k] in corners;
  }

  /** The code follows the deepest corner exactly when no corner is deep, or the last that decides is. */
  lemma DeepestDecidesIff(corners: seq<Corner>, wade: real, deep: real, before: Cell, t: Cell)
    requires LastDecides(corners, wade, deep, before, t)
    ensures DeepestDecides(corners, wade, deep, before, t)
       <==> NoneIsDeep(corners, deep) || LastIsDeep(corners, wade, deep)
  {
    if NoneDecides(corners, wade, deep) {
      forall c | c in corners ensures !IsDeep(c, deep) {
        var j :| 0 <= j < |corners| && corners[j] == c;
      }
    } else {
      var l :| IsLast(corners, wade, deep, l) && t == Verdict(corners[l], deep);
      var k := DeepestExists(corners, l);
      DeepestVerdict(corners, wade, deep, k);
      VerdictsAgree(corners, wade, deep, before, t, k, l);
    }
  }

  lemma VerdictsAgree(corners: seq<Corner>, wade: real, deep: real, before: Cell, t: Cell, k: int, l: int)
    requires IsDeepest(corners, k) && Decides(corners[k], wade, deep) && !NoneDecides(corners, wade, deep)
    requires IsDeep(corners[k], deep) <==> !NoneIsDeep(corners, deep)
    requires IsLast(corners, wade, deep, l) && t == Verdict(corners[l], deep)
    ensures DeepestDecides(corners, wade, deep, before, t)
       <==> NoneIsDeep(corners, deep) || LastIsDeep(corners, wade, deep)
  {
    if LastIsDeep(corners, wade, deep) {
      var m :| IsLast(corners, wade, deep, m) && IsDeep(corners[m], deep);
      LastIsOne(corners, wade, deep, l, m);
    }
    assert corners[l] in corners;
    if NoneIsDeep(corners, deep) || LastIsDeep(corners, wade, deep) {
      assert t == Verdict(corners[k], deep);
    }
    if m :| IsDeepest(corners, m) && Decides(corners[m], wade, deep) && t == Verdict(corners[m], deep) {
      DeepestVerdict(corners, wade, deep, m);
    }
  }

  /** A deep corner before a shallow one: the cell is shallow. */
  lemma DeepestNeedNotDecide(wade: real, deep: real, before: Cell, t: Cell)
    requires wade < deep
    requires LastDecides([Some(deep + 1.0), None, Some(deep), None], wade, deep, before, t)
    ensures t == Water && !DeepestDecides([Some(deep + 1.0), None, Some(deep), None], wade, deep, before, t)
  {
    var corners := [Some(deep + 1.0), None, Some(deep), None];
    assert Decides(corners[2], wade, deep);
    assert corners[3..] == [None];
    assert IsLast(corners, wade, deep, 2);
    assert IsDeep(corners[0], deep) && corners[0] in corners;
    if k :| IsLast(corners, wade, deep, k) && (t == Verdict(corners[k], deep) || IsDeep(corners[k], deep)) {
      LastIsOne(corners, wade, deep, k, 2);
    }
    DeepestDecidesIff(corners, wade, deep, before, t);
  }

  /** A corner from which neither threshold is exceeded. */
  predicate IsShallow(c: Corner, wade: real, deep: real) {
    c.Some? ==> c.value <= wade && c.value <= deep
  }

  /** The cell of the loop, by depths: as before over shallow corners, else as the last that is not shallow says. */
  lemma CellByDepths(corners: seq<Corner>, wade: real, deep: real, before: Cell, t: Cell, k: nat)
    requires LastDecides(corners, wade, deep, before, t)
    ensures (forall l :: 0 <= l < |corners| ==> IsShallow(corners[l], wade, deep)) ==> t == before
    ensures k < |corners| && !IsShallow(corners[k], wade, deep)
            && (forall l :: k < l < |corners| ==> IsShallow(corners[l], wade, deep))
            ==> t == if corners[k].value > deep then DeepWater else Water
  {
    if k < |corners| && !IsShallow(corners[k], wade, deep)
       && forall l :: k < l < |corners| ==> IsShallow(corners[l], wade, deep) {
      assert Decides(corners[k], wade, deep);
      assert IsLast(corners, wade, deep, k);
      if l :| IsLast(corners, wade, deep, l) && t == Verdict(corners[l], deep) {
        LastIsOne(corners, wade, deep, k, l);
      }
    }
  }

  // ----- the pinch passes

  /** Touching is being at most one column and one row apart. */
  lemma TouchIsNeighbour(i: int, j: int, k: int, l: int)
    ensures Touch(i, j, k, l) <==> i - k in {-1, 0, 1} && j - l in {-1, 0, 1}
  {
  }

  predicate Touch(i: int, j: int, k: int, l: int) {
    i - 1 <= k <= i + 1 && j - 1 <= l <= j + 1
  }

  ghost predicate InGrid(types: array2<Cell>, i: int, j: int) {
    0 <= i < types.Length0 && 0 <= j < types.Length1
  }

  /** A cliff cell among the columns before i, or in column i before row j, touches the cell. */
  ghost predicate TouchedBefore(types: array2<Cell>, i: int, j: int, k: int, l: int)
    reads types
  {
    exists a, b :: InGrid(types, a, b) && (a < i || (a == i && b < j)) && CliffTouches(types, a, b, k, l)
  }

  ghost predicate CliffTouches(types: array2<Cell>, a: int, b: int, k: int, l: int)
    requires InGrid(types, a, b)
    reads types
  {
    types[a, b] == Cliff && Touch(a, b, k, l)
  }

  ghost predicate TouchesCliff(types: array2<Cell>, k: int, l: int)
    reads types
  {
    exists a, b :: InGrid(types, a, b) && CliffTouches(types, a, b, k, l)
  }

  /** After the marks of the cells before (i, j), in the order of the loops. */
  ghost predicate MarkedUpTo(types: array2<Cell>, pinched: array2<bool>, i: int, j: int)
    reads types, pinched
  {
    && pinched.Length0 == types.Length0 && pinched.Length1 == types.Length1
    && forall k, l :: InGrid(types, k, l) ==>
         (pinched[k, l] <==> types[k, l] == Clear && TouchedBefore(types, i, j, k, l))
  }

  method Mark(types: array2<Cell>) returns (pinched: array2<bool>)
    ensures fresh(pinched) && MarkedUpTo(types, pinched, types.Length0, 0)
  {
    pinched := new bool[types.Length0, types.Length1]((_, _) => false);
    var i := 0;
    while i < types.Length0
      invariant 0 <= i <= types.Length0 && fresh(pinched)
      invariant MarkedUpTo(types, pinched, i, 0)
    {
      MarkColumn(types, pinched, i);
      i := i + 1;
    }
  }

  method MarkColumn(types: array2<Cell>, pinched: array2<bool>, i: int)
    requires 0 <= i < types.Length0 && MarkedUpTo(types, pinched, i, 0)
    modifies pinched
    ensures MarkedUpTo(types, pinched, i + 1, 0)
  {
    var j := 0;
    while j < types.Length1
      invariant 0 <= j <= types.Length1
      invariant MarkedUpTo(types, pinched, i, j)
    {
      NextCell(types, i, j);
      label Before:
      if types[i, j] == Cliff {
        MarkAround(types, pinched, i, j);
      }
      assert forall k, l :: InGrid(types, k, l) ==>
          pinched[k, l] == (old@Before(pinched[k, l]) || (types[k, l] == Clear && CliffTouches(types, i, j, k, l)));
      NextCell(types, i, j);
      j := j + 1;
    }
    NextColumn(types, i);
  }

  lemma NextCell(types: array2<Cell>, i: int, j: int)
    requires InGrid(types, i, j)
    ensures forall k, l :: TouchedBefore(types, i, j + 1, k, l) <==>
              TouchedBefore(types, i, j, k, l) || CliffTouches(types, i, j, k, l)
  {
  }

  lemma NextColumn(types: array2<Cell>, i: int)
    requires 0 <= i < types.Length0
    ensures forall k, l :: TouchedBefore(types, i, types.Length1, k, l) <==> TouchedBefore(types, i + 1, 0, k, l)
  {
  }

  /** The two inner loops around one cliff cell. */
  method MarkAround(types: array2<Cell>, pinched: array2<bool>, i: int, j: int)
    requires InGrid(types, i, j) && pinched.Length0 == types.Length0 && pinched.Length1 == types.Length1
    modifies pinched
    ensures forall k, l :: InGrid(types, k, l) ==>
              pinched[k, l] == (old(pinched[k, l]) || (types[k, l] == Clear && Touch(i, j, k, l)))
  {
    var k := if i - 1 > 0 then i - 1 else 0;
    var last := if i + 2 < types.Length0 then i + 2 else types.Length0;
    ghost var first := k;
    while k < last
      invariant first <= k <= last
      invariant forall a, b :: InGrid(types, a, b) ==>
                  pinched[a, b] == (old(pinched[a, b]) || (a < k && types[a, b] == Clear && Touch(i, j, a, b)))
    {
      MarkAlong(types, pinched, j, k);
      k := k + 1;
    }
  }

  method MarkAlong(types: array2<Cell>, pinched: array2<bool>, j: int, k: int)
    requires InGrid(types, k, j) && pinched.Length0 == types.Length0 && pinched.Length1 == types.Length1
    modifies pinched
    ensures forall a, b :: InGrid(types, a, b) ==>
              pinched[a, b] == (old(pinched[a, b]) || (a == k && types[a, b] == Clear && j - 1 <= b <= j + 1))
  {
    var l := if j - 1 > 0 then j - 1 else 0;
    var last := if j + 2 < types.Length1 then j + 2 else types.Length1;
    ghost var first := l;
    while l < last
      invariant first <= l <= last
      invariant forall a, b :: InGrid(types, a, b) ==>
                  pinched[a, b] == (old(pinched[a, b]) || (a == k && types[a, b] == Clear && first <= b < l))
    {
      if types[k, l] == Clear {
        pinched[k, l] := true;
      }
      l := l + 1;
    }
  }

  /** The second pass. */
  method Apply(types: array2<Cell>, pinched: array2<bool>)
    requires pinched.Length0 == types.Length0 && pinched.Length1 == types.Length1
    modifies types
    ensures forall k, l :: InGrid(types, k, l) ==>
              types[k, l] == (if pinched[k, l] && old(types[k, l]) == Clear then Cliff else old(types[k, l]))
  {
    var i := 0;
    while i < types.Length0
      invariant 0 <= i <= types.Length0
      invariant forall k, l :: InGrid(types, k, l) ==>
                  types[k, l] == if k < i && pinched[k, l] && old(types[k, l]) == Clear then Cliff
                                 else old(types[k, l])
    {
      var j := 0;
      while j < types.Length1
        invariant 0 <= j <= types.Length1
        invariant forall k, l :: InGrid(types, k, l) ==>
                    types[k, l] == if (k < i || (k == i && l < j)) && pinched[k, l] && old(types[k, l]) == Clear
                                   then Cliff else old(types[k, l])
      {
        if pinched[i, j] && types[i, j] == Clear {
          types[i, j] := Cliff;
        }
        j := j + 1;
      }
      i := i + 1;
    }
  }

  /**
   Both passes: exactly the clear cells that touched a cliff cell beforehand become cliffs, and are the
   pinched ones; a cell that becomes a cliff pinches no other.
   */
  method Pinch(types: array2<Cell>) returns (pinched: array2<bool>)
    modifies types
    ensures fresh(pinched) && pinched.Length0 == types.Length0 && pinched.Length1 == types.Length1
    ensures forall k, l :: InGrid(types, k, l) ==>
              && (pinched[k, l] <==> old(types[k, l]) == Clear && old(TouchesCliff(types, k, l)))
              && types[k, l] == (if pinched[k, l] then Cliff else old(types[k, l]))
  {
    pinched := Mark(types);
    AllBefore(types);
    Apply(types, pinched);
  }

  lemma AllBefore(types: array2<Cell>)
    ensures forall k, l :: TouchedBefore(types, types.Length0, 0, k, l) <==> TouchesCliff(types, k, l)
  {
  }
}
