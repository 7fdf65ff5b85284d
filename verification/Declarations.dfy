/**
 What a module declaration of tools/object_oracle/object_oracle.py leaves of a template's four lists, said
 of the modules themselves: which stay, in which order, what is added, and when the declaration is rejected.
 */
module Declarations {
  import opened Options
  import opened PyInt
  import opened Selections
  import opened Templates

  // ----- lists that are kept in part

  lemma {:induction false} KeepSelects(l: seq<Nugget>, wanted: Nugget -> bool)
    ensures IsSelection(l, Keep(l, wanted), wanted)
  {
    hide SelectsAt;
    if l == [] {
      SelectsNone(wanted);
    } else {
      var n := |l| - 1;
      KeepSelects(l[..n], wanted);
      var at :| SelectsAt(l[..n], Keep(l[..n], wanted), wanted, at);
      if wanted(l[n]) {
        SelectsNext(l, Keep(l[..n], wanted), wanted, at);
      } else {
        SelectsSkip(l, Keep(l[..n], wanted), wanted, at);
      }
    }
  }

  /** Keeping twice is keeping what is wanted both times. */
  lemma {:induction false} KeepTwice(l: seq<Nugget>, p: Nugget -> bool, q: Nugget -> bool, both: Nugget -> bool)
    requires forall n :: both(n) <==> p(n) && q(n)
    ensures Keep(Keep(l, p), q) == Keep(l, both)
  {
    if l != [] {
      KeepTwice(l[..|l| - 1], p, q, both);
      var front := Keep(l[..|l| - 1], p);
      if p(l[|l| - 1]) {
        assert (front + [l[|l| - 1]])[..|front|] == front;
      }
    }
  }

  lemma {:induction false} KeepSame(l: seq<Nugget>, p: Nugget -> bool, q: Nugget -> bool)
    requires forall n :: n in l ==> (p(n) <==> q(n))
    ensures Keep(l, p) == Keep(l, q)
  {
    if l != [] {
      assert forall n :: n in l[..|l| - 1] ==> n in l;
      KeepSame(l[..|l| - 1], p, q);
      assert l[|l| - 1] in l;
    }
  }

  lemma {:induction false} KeepEvery(l: seq<Nugget>, p: Nugget -> bool)
    requires forall n :: n in l ==> p(n)
    ensures Keep(l, p) == l
  {
    if l != [] {
      assert forall n :: n in l[..|l| - 1] ==> n in l;
      KeepEvery(l[..|l| - 1], p);
      assert l[|l| - 1] in l && l == l[..|l| - 1] + [l[|l| - 1]];
    }
  }

  // ----- the modules that a declaration leaves

  /** The list of a kind of declaration, and the type under which its classes are known. */
  function ListOf(kind: DeclKind): (i: nat)
    ensures i == TypeOf(kind)
  {
    if kind == Draw then 1 else if kind == ClientUpdate then 2 else if kind == ClientBehavior then 3 else 0
  }

  /**
   Whether a module of list i outlives the clearing before the tag check. Outside ChildObject blocks a
   copied module that is not inheritable and shares an interface bit with the declared class goes; in
   the declared list an AI module gives way to an AI class and, in a ChildObject block, a slot-7 module to
   a slot-7 class.
   */
  predicate Outlives(n: Nugget, i: nat, d: Decl, info: ClassInfo, isChild: bool) {
    && !(!isChild && Bitwise(And, n.mask, info.mask) != 0 && n.copied && !n.inheritable)
    && !(i == ListOf(d.kind) && info.isAi && n.ai)
    && !(i == ListOf(d.kind) && isChild && info.slot7 && n.slot7)
  }

  /** In a ChildObject block the declaration replaces the modules with its tag, too. */
  predicate Stays(n: Nugget, i: nat, d: Decl, info: ClassInfo, isChild: bool) {
    Outlives(n, i, d, info, isChild) && (isChild ==> n.tag != d.tag)
  }

  function Staying(i: nat, d: Decl, info: ClassInfo, isChild: bool): Nugget -> bool {
    (n: Nugget) => Stays(n, i, d, info, isChild)
  }

  function Outliving(i: nat, d: Decl, info: ClassInfo, isChild: bool): Nugget -> bool {
    (n: Nugget) => Outlives(n, i, d, info, isChild)
  }

  /** A rule that only sometimes applies. */
  lemma KeepIf(l: seq<Nugget>, on: bool, p: Nugget -> bool, q: Nugget -> bool)
    requires forall n :: q(n) <==> (on ==> p(n))
    ensures Keep(l, q) == if on then Keep(l, p) else l
  {
    if on {
      KeepSame(l, q, p);
    } else {
      KeepEvery(l, q);
    }
  }

  lemma ClearedAt(lists: Lists, i: nat, mtype: nat, info: ClassInfo, isChild: bool)
    requires i < 4 && mtype < 4
    ensures var l1 := if !isChild then Keep(lists[i], (n: Nugget) => !IsOutdated(n, info.mask)) else lists[i];
            var l2 := if i == mtype && info.isAi then Keep(l1, (n: Nugget) => !n.ai) else l1;
            Cleared(lists, mtype, info, isChild)[i]
            == if i == mtype && isChild && info.slot7 then Keep(l2, (n: Nugget) => !n.slot7) else l2
  {
  }

  lemma ClearedKeeps(lists: Lists, i: nat, d: Decl, info: ClassInfo, isChild: bool)
    requires i < 4
    ensures Cleared(lists, ListOf(d.kind), info, isChild)[i] == Keep(lists[i], Outliving(i, d, info, isChild))
  {
    hide Keep, Cleared;
    var l, mtype := lists[i], ListOf(d.kind);
    var current := (n: Nugget) => !isChild ==> !IsOutdated(n, info.mask);
    var noAi := (n: Nugget) => i == mtype && info.isAi ==> !n.ai;
    var noSlot := (n: Nugget) => i == mtype && isChild && info.slot7 ==> !n.slot7;
    var first := (n: Nugget) => current(n) && noAi(n);
    ClearedAt(lists, i, mtype, info, isChild);
    KeepIf(l, !isChild, (n: Nugget) => !IsOutdated(n, info.mask), current);
    KeepIf(Keep(l, current), i == mtype && info.isAi, (n: Nugget) => !n.ai, noAi);
    KeepIf(Keep(Keep(l, current), noAi), i == mtype && isChild && info.slot7, (n: Nugget) => !n.slot7, noSlot);
    KeepTwice(l, current, noAi, first);
    KeepTwice(l, first, noSlot, Outliving(i, d, info, isChild));
  }

  // ----- the tag check

  predicate HasTag(l: seq<Nugget>, tag: string) {
    exists n :: n in l && n.tag == tag
  }

  lemma TaggedIffHasTag(l: seq<Nugget>, tag: string)
    ensures Tagged(l, tag) != [] <==> HasTag(l, tag)
  {
    KeepCounts(l, (n: Nugget) => n.tag == tag, tag);
    if Tagged(l, tag) != [] {
      assert Tagged(l, tag)[0] in Tagged(l, tag);
    }
  }

  /** Outside ChildObject blocks a used tag rejects the declaration, and the check changes nothing. */
  lemma {:induction false} PlainTagCheck(lists: Lists, idx: nat, d: Decl)
    requires idx <= 4
    ensures TagChecked(lists, idx, d, false).0 == lists
    ensures TagChecked(lists, idx, d, false).1 <==> forall i: nat :: idx <= i < 4 ==> !HasTag(lists[i], d.tag)
    decreases 4 - idx
  {
    if idx < 4 {
      TaggedIffHasTag(lists[idx], d.tag);
      PlainTagCheck(lists, idx + 1, d);
    }
  }

  /** The first module with the tag is of another class. */
  ghost predicate FirstIsOther(l: seq<Nugget>, d: Decl) {
    exists j :: 0 <= j < |l| && l[j].tag == d.tag && l[j].cls != d.cls && forall k :: 0 <= k < j ==> l[k].tag != d.tag
  }

  /** The first element that is kept. */
  lemma {:induction false} FirstKept(l: seq<Nugget>, wanted: Nugget -> bool) returns (j: nat)
    requires Keep(l, wanted) != []
    ensures j < |l| && l[j] == Keep(l, wanted)[0] && wanted(l[j])
    ensures forall k :: 0 <= k < j ==> !wanted(l[k])
  {
    var n := |l| - 1;
    if Keep(l[..n], wanted) != [] {
      j := FirstKept(l[..n], wanted);
    } else {
      j := n;
      forall k | 0 <= k < n ensures !wanted(l[k]) {
        KeepCounts(l[..n], wanted, "");
        assert l[..n][k] in l[..n];
      }
    }
  }

  lemma FirstDecides(l: seq<Nugget>, d: Decl)
    ensures FirstIsOther(l, d) <==> Tagged(l, d.tag) != [] && Tagged(l, d.tag)[0].cls != d.cls
  {
    TaggedIffHasTag(l, d.tag);
    if Tagged(l, d.tag) != [] {
      var j := FirstKept(l, (n: Nugget) => n.tag == d.tag);
      if i :| 0 <= i < |l| && l[i].tag == d.tag && l[i].cls != d.cls && forall k :: 0 <= k < i ==> l[k].tag != d.tag {
        assert i == j;
      }
    }
  }

  /** In a ChildObject block only a Draw module of another class with the tag rejects it. */
  predicate NoTagLeft(lists: Lists, tag: string) {
    forall i: nat :: i < 4 ==> !HasTag(lists[i], tag)
  }

  lemma {:induction false} FreeTagPasses(lists: Lists, idx: nat, d: Decl)
    requires idx <= 4 && forall i: nat :: idx <= i < 4 ==> !HasTag(lists[i], d.tag)
    ensures TagChecked(lists, idx, d, true) == (lists, true)
    decreases 4 - idx
  {
    if idx < 4 {
      TaggedIffHasTag(lists[idx], d.tag);
      FreeTagPasses(lists, idx + 1, d);
    }
  }

  lemma RemovedTag(lists: Lists, tag: string)
    ensures NoTagLeft(WithoutTag(lists, tag), tag)
    ensures NoTagLeft(lists, tag) ==> WithoutTag(lists, tag) == lists
  {
    KeptByTag(lists, tag);
    if NoTagLeft(lists, tag) {
      forall i: nat | i < 4 ensures WithoutTag(lists, tag)[i] == lists[i] {
        KeepEvery(lists[i], (n: Nugget) => n.tag != tag);
      }
      assert WithoutTag(lists, tag) == lists;
    }
  }

  /** From the first list with the tag on, all modules with it go and the rest of the check finds none. */
  lemma FoundTag(lists: Lists, idx: nat, d: Decl)
    requires idx < 4 && HasTag(lists[idx], d.tag) && (idx == 1 ==> !FirstIsOther(lists[1], d))
    ensures TagChecked(lists, idx, d, true) == (WithoutTag(lists, d.tag), true)
  {
    TaggedIffHasTag(lists[idx], d.tag);
    FirstDecides(lists[1], d);
    RemovedTag(lists, d.tag);
    FreeTagPasses(WithoutTag(lists, d.tag), idx + 1, d);
  }

  lemma NotFound(lists: Lists, idx: nat, d: Decl)
    requires idx < 4 && !HasTag(lists[idx], d.tag)
    ensures TagChecked(lists, idx, d, true) == TagChecked(lists, idx + 1, d, true)
  {
    TaggedIffHasTag(lists[idx], d.tag);
  }

  /** The check from list 2 on. */
  lemma LastLists(lists: Lists, d: Decl)
    requires !HasTag(lists[0], d.tag) && !HasTag(lists[1], d.tag)
    ensures TagChecked(lists, 2, d, true) == (WithoutTag(lists, d.tag), true)
  {
    if HasTag(lists[2], d.tag) {
      FoundTag(lists, 2, d);
    } else if HasTag(lists[3], d.tag) {
      NotFound(lists, 2, d);
      FoundTag(lists, 3, d);
    } else {
      FreeTagPasses(lists, 2, d);
      RemovedTag(lists, d.tag);
    }
  }

  /** In a ChildObject block only a Draw module of another class rejects the tag; else the tag is freed. */
  lemma ChildTagCheck(lists: Lists, d: Decl)
    ensures TagChecked(lists, 0, d, true)
         == if HasTag(lists[0], d.tag) || !FirstIsOther(lists[1], d) then (WithoutTag(lists, d.tag), true)
            else (lists, false)
  {
    FirstDecides(lists[1], d);
    if HasTag(lists[0], d.tag) {
      FoundTag(lists, 0, d);
    } else {
      NotFound(lists, 0, d);
      if !HasTag(lists[1], d.tag) {
        NotFound(lists, 1, d);
        TaggedIffHasTag(lists[1], d.tag);
        LastLists(lists, d);
      } else if !FirstIsOther(lists[1], d) {
        FoundTag(lists, 1, d);
      }
    }
  }

  // ----- one declaration

  predicate IsKnown(d: Decl, reg: Registry) {
    var key := (d.cls, ListOf(d.kind));
    key in reg && (d.kind == Body <==> Bitwise(And, reg[key].mask, 0x20) != 0)
  }

  function InfoOf(d: Decl, reg: Registry): ClassInfo
    requires IsKnown(d, reg)
  {
    reg[(d.cls, ListOf(d.kind))]
  }

  /** The modules of list i that the clearing leaves and that have the tag. */
  ghost predicate TagOutlives(l: seq<Nugget>, i: nat, d: Decl, info: ClassInfo, isChild: bool) {
    exists n :: n in l && Outlives(n, i, d, info, isChild) && n.tag == d.tag
  }

  /** The first of these Draw modules is of another class. */
  ghost predicate OtherDraw(l: seq<Nugget>, d: Decl, info: ClassInfo) {
    exists j :: 0 <= j < |l| && Outlives(l[j], 1, d, info, true) && l[j].tag == d.tag && l[j].cls != d.cls
                && forall k :: 0 <= k < j ==> !(Outlives(l[k], 1, d, info, true) && l[k].tag == d.tag)
  }

  /** When the tag rejects the declaration of a known class. */
  ghost predicate IsRejected(lists: Lists, d: Decl, info: ClassInfo, isChild: bool) {
    if isChild then !TagOutlives(lists[0], 0, d, info, true) && OtherDraw(lists[1], d, info)
    else exists i: nat :: i < 4 && TagOutlives(lists[i], i, d, info, false)
  }

  lemma KeptTag(lists: Lists, i: nat, d: Decl, info: ClassInfo, isChild: bool)
    requires i < 4
    ensures HasTag(Cleared(lists, ListOf(d.kind), info, isChild)[i], d.tag)
       <==> TagOutlives(lists[i], i, d, info, isChild)
  {
    ClearedKeeps(lists, i, d, info, isChild);
    KeepCounts(lists[i], Outliving(i, d, info, isChild), "");
  }

  lemma KeptFirst(lists: Lists, d: Decl, info: ClassInfo)
    ensures FirstIsOther(Cleared(lists, ListOf(d.kind), info, true)[1], d) <==> OtherDraw(lists[1], d, info)
  {
    var kept := Keep(lists[1], Outliving(1, d, info, true));
    var both := (n: Nugget) => Outlives(n, 1, d, info, true) && n.tag == d.tag;
    ClearedKeeps(lists, 1, d, info, true);
    FirstDecides(kept, d);
    KeepTwice(lists[1], Outliving(1, d, info, true), (n: Nugget) => n.tag == d.tag, both);
    KeepCounts(lists[1], both, "");
    var l := lists[1];
    if Keep(l, both) != [] {
      var j := FirstKept(l, both);
      assert forall k :: 0 <= k < |l| ==> (both(l[k]) <==> Outlives(l[k], 1, d, info, true) && l[k].tag == d.tag);
      if OtherDraw(l, d, info) {
        var i :| 0 <= i < |l| && both(l[i]) && l[i].cls != d.cls && forall k :: 0 <= k < i ==> !both(l[k]);
        assert i == j;
      }
    } else {
      forall j | 0 <= j < |l| ensures !(Outlives(l[j], 1, d, info, true) && l[j].tag == d.tag) {
        assert l[j] in l;
      }
    }
  }

  lemma CheckRejects(lists: Lists, d: Decl, info: ClassInfo, isChild: bool)
    ensures TagChecked(Cleared(lists, ListOf(d.kind), info, isChild), 0, d, isChild).1
       <==> !IsRejected(lists, d, info, isChild)
  {
    var cleared := Cleared(lists, ListOf(d.kind), info, isChild);
    forall i: nat | i < 4 ensures HasTag(cleared[i], d.tag) <==> TagOutlives(lists[i], i, d, info, isChild) {
      KeptTag(lists, i, d, info, isChild);
    }
    if isChild {
      KeptFirst(lists, d, info);
      ChildTagCheck(cleared, d);
    } else {
      PlainTagCheck(cleared, 0, d);
    }
  }

  /** What the tag check leaves of the cleared lists. */
  lemma CheckLeaves(lists: Lists, d: Decl, info: ClassInfo, isChild: bool, i: nat)
    requires i < 4
    ensures TagChecked(Cleared(lists, ListOf(d.kind), info, isChild), 0, d, isChild).0[i]
         == Keep(lists[i], if IsRejected(lists, d, info, isChild) then Outliving(i, d, info, isChild)
                           else Staying(i, d, info, isChild))
  {
    var cleared := Cleared(lists, ListOf(d.kind), info, isChild);
    ClearedKeeps(lists, i, d, info, isChild);
    CheckRejects(lists, d, info, isChild);
    if isChild {
      ChildTagCheck(cleared, d);
      KeepTwice(lists[i], Outliving(i, d, info, true), (n: Nugget) => n.tag != d.tag, Staying(i, d, info, true));
    } else {
      PlainTagCheck(cleared, 0, d);
      KeepSame(lists[i], Outliving(i, d, info, false), Staying(i, d, info, false));
    }
  }

  /** The module that a declaration adds. */
  function NewModule(d: Decl, info: ClassInfo): Nugget {
    Nugget(d.cls, d.tag, info.mask, info.isAi, info.slot7, false, d.mode == Inheritable)
  }

  /**
   A declaration of an unknown class changes nothing. Otherwise every list keeps exactly the modules that
   stay, in their order, and the declared list gets the new module behind them; if the tag rejects the
   declaration the clearing has still been done, but no tag is freed and nothing added.
   */
  lemma DeclarationSelects(lists: Lists, d: Decl, reg: Registry, isChild: bool)
    ensures !IsKnown(d, reg) ==> Declared(lists, d, reg, isChild) == lists
    ensures IsKnown(d, reg) ==>
              var info, after := InfoOf(d, reg), Declared(lists, d, reg, isChild);
              forall i: nat :: i < 4 ==>
                if IsRejected(lists, d, info, isChild)
                  then IsSelection(lists[i], after[i], Outliving(i, d, info, isChild))
                else if i != ListOf(d.kind) then IsSelection(lists[i], after[i], Staying(i, d, info, isChild))
                else
                  var n := |after[i]| - 1;
                  && n >= 0 && after[i][n] == NewModule(d, info)
                  && IsSelection(lists[i], after[i][..n], Staying(i, d, info, isChild))
  {
    if IsKnown(d, reg) {
      var info := InfoOf(d, reg);
      CheckRejects(lists, d, info, isChild);
      forall i: nat | i < 4
        ensures IsSelection(lists[i], TagChecked(Cleared(lists, ListOf(d.kind), info, isChild), 0, d, isChild).0[i],
                            if IsRejected(lists, d, info, isChild) then Outliving(i, d, info, isChild)
                            else Staying(i, d, info, isChild))
      {
        CheckLeaves(lists, d, info, isChild, i);
        KeepSelects(lists[i], if IsRejected(lists, d, info, isChild) then Outliving(i, d, info, isChild)
                              else Staying(i, d, info, isChild));
      }
    }
  }

  /** Which problems a declaration meets. */
  lemma ProblemsAre(lists: Lists, d: Decl, reg: Registry, isChild: bool, replacing: Replacing)
    ensures var ps, key := DeclareProblems(lists, d, reg, isChild, replacing), (d.cls, ListOf(d.kind));
            && (NotABody in ps <==> d.kind == Body && !IsKnown(d, reg))
            && (UnknownClass in ps <==> d.kind != Body && key !in reg)
            && (BodyDeclaredOtherwise in ps <==> d.kind != Body && key in reg && Bitwise(And, reg[key].mask, 0x20) != 0)
            && (TagUsed in ps <==> IsKnown(d, reg) && IsRejected(lists, d, InfoOf(d, reg), isChild))
            && (ReplacesOtherClass in ps <==> IsKnown(d, reg) && replacing.Some? && replacing.value.0 != Some(d.cls))
            && (ReplaceKeepsTag in ps <==> IsKnown(d, reg) && replacing.Some? && replacing.value.1 == d.tag)
  {
    hide TagChecked, Cleared, IsRejected, ReplaceProblems;
    LookupIs(d, reg);
    if IsKnown(d, reg) {
      CheckRejects(lists, d, InfoOf(d, reg), isChild);
      ReplacementIs(d, replacing);
    }
  }

  lemma LookupIs(d: Decl, reg: Registry)
    ensures var (info, ps) := Lookup(reg, d);
            if IsKnown(d, reg) then info == Some(InfoOf(d, reg))
            else info == None && ps == [if d.kind == Body then NotABody
                                        else if (d.cls, ListOf(d.kind)) !in reg then UnknownClass
                                        else BodyDeclaredOtherwise]
  {
  }

  lemma ReplacementIs(d: Decl, replacing: Replacing)
    ensures var ps := ReplaceProblems(d, replacing);
            && (ReplacesOtherClass in ps <==> replacing.Some? && replacing.value.0 != Some(d.cls))
            && (ReplaceKeepsTag in ps <==> replacing.Some? && replacing.value.1 == d.tag)
            && forall p :: p in ps ==> p == ReplacesOtherClass || p == ReplaceKeepsTag
  {
  }

  // ----- removals and blocks

  lemma RemovalSelects(lists: Lists, tag: string, i: nat)
    requires i < 4
    ensures IsSelection(lists[i], WithoutTag(lists, tag)[i], (n: Nugget) => n.tag != tag)
  {
    KeepSelects(lists[i], (n: Nugget) => n.tag != tag);
  }

  /** l is m with every module marked as copied, in its order. */
  predicate IsMarked(l: Lists, m: Lists) {
    forall i: nat :: i < 4 ==>
      |l[i]| == |m[i]| && forall k :: 0 <= k < |l[i]| ==> l[i][k] == m[i][k].(copied := true)
  }

  lemma {:induction false} MarkedAt(l: seq<Nugget>, k: nat)
    requires k < |l|
    ensures |Marked(l)| == |l| && Marked(l)[k] == l[k].(copied := true)
  {
    if k < |l| - 1 {
      MarkedAt(l[..|l| - 1], k);
    } else if k > 0 {
      MarkedAt(l[..k], k - 1);
    }
  }

  lemma CopyIsMarked(lists: Lists)
    ensures IsMarked(CopyOf(lists), lists)
  {
    forall i: nat | i < 4
      ensures |CopyOf(lists)[i]| == |lists[i]|
      ensures forall k :: 0 <= k < |lists[i]| ==> CopyOf(lists)[i][k] == lists[i][k].(copied := true)
    {
      forall k | 0 <= k < |lists[i]|
        ensures |Marked(lists[i])| == |lists[i]| && Marked(lists[i])[k] == lists[i][k].(copied := true)
      {
        MarkedAt(lists[i], k);
      }
    }
  }

  /**
   A block without operations leaves the marked modules of its original; without one, those of the default
   template if it defines a new template, and its template as it was if not. No other template changes.
   */
  lemma EmptyBlock(lib: Library, od: ObjectDef, reg: Registry)
    requires od.ops == []
    ensures forall name :: name in lib && name != od.name ==>
              name in Defined(lib, od, reg) && Defined(lib, od, reg)[name] == lib[name]
    ensures od.name in Defined(lib, od, reg)
    ensures var after := Defined(lib, od, reg)[od.name];
            if od.parent in lib && od.parent != "" then IsMarked(after, lib[od.parent])
            else if od.name in lib then after == lib[od.name]
            else if "DefaultThingTemplate" in lib then IsMarked(after, lib["DefaultThingTemplate"])
            else after == [[], [], [], []]
  {
    if od.parent in lib {
      CopyIsMarked(lib[od.parent]);
    }
    if "DefaultThingTemplate" in lib {
      CopyIsMarked(lib["DefaultThingTemplate"]);
      CopyIsMarked(CopyOf(lib["DefaultThingTemplate"]));
    }
  }

  // ----- the problems of a block

  predicate IsUsed(lists: Lists, tag: string) {
    exists i: nat :: i < 4 && HasTag(lists[i], tag)
  }

  /** The class of the last module with the tag in the last list that has one. */
  ghost predicate IsLastClass(lists: Lists, tag: string, cls: string) {
    exists i: nat, j: nat ::
      && i < 4 && j < |lists[i]| && lists[i][j].tag == tag && lists[i][j].cls == cls
      && (forall k :: j < k < |lists[i]| ==> lists[i][k].tag != tag)
      && (forall h: nat :: i < h < 4 ==> !HasTag(lists[h], tag))
  }

  lemma {:induction false} LastTagged(l: seq<Nugget>, tag: string) returns (j: nat)
    requires Tagged(l, tag) != []
    ensures j < |l| && l[j] == Tagged(l, tag)[|Tagged(l, tag)| - 1] && l[j].tag == tag
    ensures forall k :: j < k < |l| ==> l[k].tag != tag
  {
    var n := |l| - 1;
    if l[n].tag == tag {
      j := n;
    } else {
      j := LastTagged(l[..n], tag);
    }
  }

  lemma {:induction false} ClassUpTo(lists: Lists, tag: string, n: nat)
    requires n <= 4 && forall h: nat :: n <= h < 4 ==> !HasTag(lists[h], tag)
    ensures match ClassOf(lists, tag, n)
            case None => !IsUsed(lists, tag)
            case Some(cls) => IsLastClass(lists, tag, cls)
  {
    if n > 0 {
      TaggedIffHasTag(lists[n - 1], tag);
      if Tagged(lists[n - 1], tag) == [] {
        ClassUpTo(lists, tag, n - 1);
      } else {
        var j := LastTagged(lists[n - 1], tag);
      }
    }
  }

  /** Operation k is the last ReplaceModule, and finds the class under the tag, or none. */
  ghost predicate StartedAt(lists: Lists, ops: seq<Op>, reg: Registry, isChild: bool, k: nat, cls: Option<string>,
                            tag: string)
  {
    && k < |ops| && ops[k] == StartReplace(tag)
    && (forall l :: k < l < |ops| ==> !ops[l].StartReplace?)
    && match cls
       case None => !IsUsed(AppliedAll(lists, ops[..k], reg, isChild), tag)
       case Some(name) => IsLastClass(AppliedAll(lists, ops[..k], reg, isChild), tag, name)
  }

  /** The replacement under way behind the operations: that of the last ReplaceModule among them. */
  ghost predicate IsReplacing(lists: Lists, ops: seq<Op>, reg: Registry, isChild: bool, replacing: Replacing) {
    match replacing
    case None => forall k :: 0 <= k < |ops| ==> !ops[k].StartReplace?
    case Some(started) => exists k: nat :: StartedAt(lists, ops, reg, isChild, k, started.0, started.1)
  }

  lemma StartedBefore(lists: Lists, ops: seq<Op>, reg: Registry, isChild: bool, k: nat, cls: Option<string>,
                      tag: string)
    requires ops != [] && !ops[|ops| - 1].StartReplace?
    requires StartedAt(lists, ops[..|ops| - 1], reg, isChild, k, cls, tag)
    ensures StartedAt(lists, ops, reg, isChild, k, cls, tag)
  {
    assert ops[..|ops| - 1][..k] == ops[..k];
  }

  lemma {:induction false} ReplacingIs(lists: Lists, ops: seq<Op>, reg: Registry, isChild: bool)
    ensures IsReplacing(lists, ops, reg, isChild, ReplacingAfter(lists, ops, reg, isChild))
  {
    if ops != [] {
      var n := |ops| - 1;
      if ops[n].StartReplace? {
        ClassUpTo(AppliedAll(lists, ops[..n], reg, isChild), ops[n].tag, 4);
        var cls := ClassOf(AppliedAll(lists, ops[..n], reg, isChild), ops[n].tag, 4);
        assert StartedAt(lists, ops, reg, isChild, n, cls, ops[n].tag);
      } else {
        hide StartedAt;
        ReplacingIs(lists, ops[..n], reg, isChild);
        var replacing := ReplacingAfter(lists, ops[..n], reg, isChild);
        if replacing.Some? {
          var (cls, tag) := replacing.value;
          var k: nat :| StartedAt(lists, ops[..n], reg, isChild, k, cls, tag);
          StartedBefore(lists, ops, reg, isChild, k, cls, tag);
        } else {
          assert forall k :: 0 <= k < n ==> ops[..n][k] == ops[k];
        }
      }
    }
  }

  /** What one operation meets: a removal needs a module with the tag; only a replacing declaration compares. */
  predicate IsMetBy(problem: Problem, lists: Lists, op: Op, replacing: Replacing, reg: Registry, isChild: bool) {
    match op
    case Remove(tag) => problem == NothingToRemove && !IsUsed(lists, tag)
    case StartReplace(tag) => problem == NothingToReplace && !IsUsed(lists, tag)
    case Declare(d) => problem in DeclareProblems(lists, d, reg, isChild, if d.mode.Replace? then replacing else None)
  }

  lemma OpMeets(problem: Problem, lists: Lists, op: Op, replacing: Replacing, reg: Registry, isChild: bool)
    ensures problem in OpProblems(lists, op, replacing, reg, isChild)
       <==> IsMetBy(problem, lists, op, replacing, reg, isChild)
  {
    if !op.Declare? {
      ClassUpTo(lists, op.tag, 4);
      if IsUsed(lists, op.tag) && ClassOf(lists, op.tag, 4).Some? {
        assert IsLastClass(lists, op.tag, ClassOf(lists, op.tag, 4).value);
      }
    }
  }

  /** Operation k of the block meets the problem, on the lists that the ones before it leave. */
  predicate MeetsAt(problem: Problem, lists: Lists, ops: seq<Op>, reg: Registry, isChild: bool, k: nat) {
    k < |ops| && IsMetBy(problem, AppliedAll(lists, ops[..k], reg, isChild), ops[k],
                         ReplacingAfter(lists, ops[..k], reg, isChild), reg, isChild)
  }

  lemma MeetsInFront(problem: Problem, lists: Lists, ops: seq<Op>, reg: Registry, isChild: bool, n: nat, k: nat)
    requires k < n <= |ops|
    ensures MeetsAt(problem, lists, ops[..n], reg, isChild, k) <==> MeetsAt(problem, lists, ops, reg, isChild, k)
  {
    assert ops[..n][..k] == ops[..k];
  }

  lemma MeetsLast(problem: Problem, lists: Lists, ops: seq<Op>, reg: Registry, isChild: bool)
    requires ops != []
    ensures problem in BlockProblems(lists, ops, reg, isChild)
       <==> problem in BlockProblems(lists, ops[..|ops| - 1], reg, isChild)
            || MeetsAt(problem, lists, ops, reg, isChild, |ops| - 1)
  {
    hide IsMetBy, OpProblems, AppliedAll, ReplacingAfter;
    var n := |ops| - 1;
    OpMeets(problem, AppliedAll(lists, ops[..n], reg, isChild), ops[n], ReplacingAfter(lists, ops[..n], reg, isChild),
            reg, isChild);
  }

  lemma {:induction false} BlockMeets(problem: Problem, lists: Lists, ops: seq<Op>, reg: Registry, isChild: bool)
    ensures problem in BlockProblems(lists, ops, reg, isChild)
       <==> exists k: nat :: k < |ops| && MeetsAt(problem, lists, ops, reg, isChild, k)
  {
    hide MeetsAt;
    if ops != [] {
      var n := |ops| - 1;
      BlockMeets(problem, lists, ops[..n], reg, isChild);
      MeetsLast(problem, lists, ops, reg, isChild);
      forall k: nat | k < n
        ensures MeetsAt(problem, lists, ops[..n], reg, isChild, k) <==> MeetsAt(problem, lists, ops, reg, isChild, k)
      {
        MeetsInFront(problem, lists, ops, reg, isChild, n, k);
      }
    }
  }

  /** The template of a block before its operations. */
  function Opened(lib: Library, od: ObjectDef, reg: Registry): Lists
    requires od.name in Defined(lib, od.(ops := []), reg)
  {
    Defined(lib, od.(ops := []), reg)[od.name]
  }

  /**
   A block whose original is missing is reported and its operations are passed over; every other block meets
   what its operations meet, one after the other, ChildObject blocks by their own rules.
   */
  lemma DefineMeets(problem: Problem, lib: Library, od: ObjectDef, reg: Registry)
    ensures od.name in Defined(lib, od.(ops := []), reg) && od.name in Defined(lib, od, reg)
    ensures if od.parent != "" && od.parent !in lib && od.parent != od.name then
              && (problem in DefineProblems(lib, od, reg) <==> problem == OriginalMissing)
              && Defined(lib, od, reg)[od.name] == Opened(lib, od, reg)
            else
              && Defined(lib, od, reg)[od.name] == AppliedAll(Opened(lib, od, reg), od.ops, reg, od.kind.ChildObject?)
              && (problem in DefineProblems(lib, od, reg)
                  <==> exists k: nat ::
                         k < |od.ops| && MeetsAt(problem, Opened(lib, od, reg), od.ops, reg, od.kind.ChildObject?, k))
  {
    BlockMeets(problem, Opened(lib, od, reg), od.ops, reg, od.kind.ChildObject?);
  }

  /** The whole list meets what its blocks meet, one after the other. */
  predicate BlockAtMeets(problem: Problem, ods: seq<ObjectDef>, reg: Registry, k: nat) {
    k < |ods| && problem in DefineProblems(Built(ods[..k], reg), ods[k], reg)
  }

  lemma {:induction false} BuildMeets(problem: Problem, ods: seq<ObjectDef>, reg: Registry)
    ensures problem in BuildProblems(ods, reg) <==> exists k: nat :: BlockAtMeets(problem, ods, reg, k)
  {
    hide Built, DefineProblems;
    if ods != [] {
      var n := |ods| - 1;
      BuildMeets(problem, ods[..n], reg);
      forall k: nat | k < n ensures BlockAtMeets(problem, ods[..n], reg, k) <==> BlockAtMeets(problem, ods, reg, k) {
        assert ods[..n][..k] == ods[..k] && ods[..n][k] == ods[k];
      }
      assert BlockAtMeets(problem, ods, reg, n)
        <==> problem in DefineProblems(Built(ods[..n], reg), ods[n], reg);
    }
  }
}
