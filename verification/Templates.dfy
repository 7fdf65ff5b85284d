/**
 The object model of tools/object_oracle/object_oracle.py (`apply_decl`, `build_templates`): every
 template is four lists of module nuggets that declarations clear, replace and extend.
 */
module Templates {
  import opened Options
  import opened PyInt

  datatype Nugget = Nugget(cls: string, tag: string, mask: nat, ai: bool, slot7: bool, copied: bool, inheritable: bool)

  /** The four lists: behavior (and body), draw, client update, client behavior. */
  type Lists = s: seq<seq<Nugget>> | |s| == 4 witness [[], [], [], []]

  datatype ClassInfo = ClassInfo(mask: nat, isAi: bool, slot7: bool)

  /** (class name, module type) -> what the binary knows of the class. */
  type Registry = map<(string, nat), ClassInfo>

  datatype DeclKind = Behavior | Body | Draw | ClientUpdate | ClientBehavior

  datatype Mode = Normal | Add | Inheritable | Replace

  datatype Decl = Decl(kind: DeclKind, cls: string, tag: string, mode: Mode)

  datatype Op = Declare(d: Decl) | Remove(tag: string) | StartReplace(tag: string)

  datatype DefKind = Object | ChildObject | ObjectReskin

  /** A definition block; parent is empty when it has none. */
  datatype ObjectDef = ObjectDef(kind: DefKind, name: string, parent: string, ops: seq<Op>)

  datatype Problem = NotABody | UnknownClass | BodyDeclaredOtherwise | ReplacesOtherClass | ReplaceKeepsTag
                   | TagUsed | NothingToRemove | NothingToReplace | OriginalMissing

  const BODY_MASK: nat := 0x20

  predicate Shares(a: nat, b: nat) {
    Bitwise(And, a, b) != 0
  }

  function TypeOf(kind: DeclKind): (mtype: nat)
    ensures mtype < 4
  {
    match kind
    case Behavior => 0
    case Body => 0
    case Draw => 1
    case ClientUpdate => 2
    case ClientBehavior => 3
  }

  // ----- list edits

  function Keep(l: seq<Nugget>, wanted: Nugget -> bool): seq<Nugget> {
    if l == [] then []
    else if wanted(l[|l| - 1]) then Keep(l[..|l| - 1], wanted) + [l[|l| - 1]]
    else Keep(l[..|l| - 1], wanted)
  }

  function KeepAll(lists: Lists, wanted: Nugget -> bool): Lists {
    [Keep(lists[0], wanted), Keep(lists[1], wanted), Keep(lists[2], wanted), Keep(lists[3], wanted)]
  }

  function KeepIn(lists: Lists, idx: nat, wanted: Nugget -> bool): Lists
    requires idx < 4
  {
    lists[idx := Keep(lists[idx], wanted)]
  }

  function Tagged(l: seq<Nugget>, tag: string): seq<Nugget> {
    Keep(l, (n: Nugget) => n.tag == tag)
  }

  function WithoutTag(lists: Lists, tag: string): Lists {
    KeepAll(lists, (n: Nugget) => n.tag != tag)
  }

  function Marked(l: seq<Nugget>): seq<Nugget> {
    if l == [] then [] else Marked(l[..|l| - 1]) + [l[|l| - 1].(copied := true)]
  }

  /** `copy_from` followed by `mark_copied`. */
  function CopyOf(lists: Lists): Lists {
    [Marked(lists[0]), Marked(lists[1]), Marked(lists[2]), Marked(lists[3])]
  }

  /** A copied module that is not inheritable and shares an interface bit with mask. */
  predicate IsOutdated(n: Nugget, mask: nat) {
    Shares(n.mask, mask) && n.copied && !n.inheritable
  }

  // ----- one declaration

  function Lookup(reg: Registry, d: Decl): (r: (Option<ClassInfo>, seq<Problem>))
    ensures r.0.None? <==> r.1 != []
  {
    var info := Get(reg, (d.cls, TypeOf(d.kind)));
    if d.kind == Body then
      if info.None? || !Shares(info.value.mask, BODY_MASK) then (None, [NotABody]) else (info, [])
    else if info.None? then (None, [UnknownClass])
    else if Shares(info.value.mask, BODY_MASK) then (None, [BodyDeclaredOtherwise])
    else (info, [])
  }

  /** Make room for a class: the clearing rules that run before the tag check. */
  function Cleared(lists: Lists, mtype: nat, info: ClassInfo, isChild: bool): Lists
    requires mtype < 4
  {
    var l1 := if isChild then lists else KeepAll(lists, (n: Nugget) => !IsOutdated(n, info.mask));
    var l2 := if info.isAi then KeepIn(l1, mtype, (n: Nugget) => !n.ai) else l1;
    if info.slot7 && isChild then KeepIn(l2, mtype, (n: Nugget) => !n.slot7) else l2
  }

  /** The tag check from list idx on: the lists, and whether the tag is free for the declaration. */
  function TagChecked(lists: Lists, idx: nat, d: Decl, isChild: bool): (Lists, bool)
    requires idx <= 4
    decreases 4 - idx
  {
    if idx == 4 then (lists, true)
    else
      var hit := Tagged(lists[idx], d.tag);
      if hit == [] then TagChecked(lists, idx + 1, d, isChild)
      else if isChild && (idx != 1 || hit[0].cls == d.cls) then
        TagChecked(WithoutTag(lists, d.tag), idx + 1, d, isChild)
      else (lists, false)
  }

  function NuggetOf(d: Decl, info: ClassInfo): Nugget {
    Nugget(d.cls, d.tag, info.mask, info.isAi, info.slot7, false, d.mode == Inheritable)
  }

  function ReplaceProblems(d: Decl, replacing: Replacing): seq<Problem> {
    if replacing.None? then []
    else
      (if replacing.value.0 != Some(d.cls) then [ReplacesOtherClass] else [])
      + (if replacing.value.1 == d.tag then [ReplaceKeepsTag] else [])
  }

  function Declared(lists: Lists, d: Decl, reg: Registry, isChild: bool): Lists {
    var info := Lookup(reg, d).0;
    if info.None? then lists
    else
      var (checked, free) := TagChecked(Cleared(lists, TypeOf(d.kind), info.value, isChild), 0, d, isChild);
      if free then checked[TypeOf(d.kind) := checked[TypeOf(d.kind)] + [NuggetOf(d, info.value)]] else checked
  }

  function Applied(lists: Lists, op: Op, reg: Registry, isChild: bool): Lists {
    match op
    case Declare(d) => Declared(lists, d, reg, isChild)
    case Remove(tag) => WithoutTag(lists, tag)
    case StartReplace(tag) => WithoutTag(lists, tag)
  }

  function AppliedAll(lists: Lists, ops: seq<Op>, reg: Registry, isChild: bool): Lists {
    if ops == [] then lists
    else Applied(AppliedAll(lists, ops[..|ops| - 1], reg, isChild), ops[|ops| - 1], reg, isChild)
  }

  // ----- all definitions

  const DEFAULT_TEMPLATE := "DefaultThingTemplate"

  type Library = map<string, Lists>

  /** The template a definition starts from: the existing one, or a copy of the default. */
  function Initial(lib: Library, name: string): Lists {
    if name in lib then lib[name]
    else if DEFAULT_TEMPLATE in lib then CopyOf(lib[DEFAULT_TEMPLATE])
    else [[], [], [], []]
  }

  function Defined(lib: Library, od: ObjectDef, reg: Registry): Library {
    var present := lib[od.name := Initial(lib, od.name)];
    if od.parent != "" && od.parent !in present then present
    else
      var start := if od.parent != "" then CopyOf(present[od.parent]) else present[od.name];
      present[od.name := AppliedAll(start, od.ops, reg, od.kind == ChildObject)]
  }

  function Built(ods: seq<ObjectDef>, reg: Registry): Library {
    if ods == [] then map[] else Defined(Built(ods[..|ods| - 1], reg), ods[|ods| - 1], reg)
  }

  // ----- tags stay unique, and every list has at most one AI module

  function TagCount(l: seq<Nugget>, tag: string): nat {
    if l == [] then 0 else TagCount(l[..|l| - 1], tag) + (if l[|l| - 1].tag == tag then 1 else 0)
  }

  function TotalCount(lists: Lists, tag: string): nat {
    TagCount(lists[0], tag) + TagCount(lists[1], tag) + TagCount(lists[2], tag) + TagCount(lists[3], tag)
  }

  function AiCount(l: seq<Nugget>): nat {
    if l == [] then 0 else AiCount(l[..|l| - 1]) + (if l[|l| - 1].ai then 1 else 0)
  }

  ghost predicate UniqueTags(lists: Lists) {
    forall tag :: TotalCount(lists, tag) <= 1
  }

  ghost predicate OneAi(lists: Lists) {
    forall i :: 0 <= i < 4 ==> AiCount(lists[i]) <= 1
  }

  ghost predicate WellFormed(lists: Lists) {
    UniqueTags(lists) && OneAi(lists)
  }

  lemma {:induction false} KeepCounts(l: seq<Nugget>, wanted: Nugget -> bool, tag: string)
    ensures TagCount(Keep(l, wanted), tag) <= TagCount(l, tag)
    ensures AiCount(Keep(l, wanted)) <= AiCount(l)
    ensures forall n :: n in Keep(l, wanted) <==> n in l && wanted(n)
  {
    if l != [] {
      KeepCounts(l[..|l| - 1], wanted, tag);
      assert l == l[..|l| - 1] + [l[|l| - 1]];
    }
  }

  lemma {:induction false} CountZero(l: seq<Nugget>, tag: string)
    ensures TagCount(l, tag) == 0 <==> forall n :: n in l ==> n.tag != tag
    ensures AiCount(l) == 0 <==> forall n :: n in l ==> !n.ai
  {
    if l != [] {
      CountZero(l[..|l| - 1], tag);
      assert l == l[..|l| - 1] + [l[|l| - 1]];
    }
  }

  lemma KeepAllWellFormed(lists: Lists, wanted: Nugget -> bool)
    requires WellFormed(lists)
    ensures WellFormed(KeepAll(lists, wanted))
  {
    forall tag ensures TotalCount(KeepAll(lists, wanted), tag) <= 1 {
      assert TotalCount(lists, tag) <= 1;
      KeepCounts(lists[0], wanted, tag);
      KeepCounts(lists[1], wanted, tag);
      KeepCounts(lists[2], wanted, tag);
      KeepCounts(lists[3], wanted, tag);
    }
    forall i | 0 <= i < 4 ensures AiCount(KeepAll(lists, wanted)[i]) <= 1 {
      KeepCounts(lists[i], wanted, "");
    }
  }

  lemma KeepInWellFormed(lists: Lists, idx: nat, wanted: Nugget -> bool)
    requires WellFormed(lists) && idx < 4
    ensures WellFormed(KeepIn(lists, idx, wanted))
  {
    forall tag ensures TotalCount(KeepIn(lists, idx, wanted), tag) <= 1 {
      assert TotalCount(lists, tag) <= 1;
      KeepCounts(lists[idx], wanted, tag);
    }
    KeepCounts(lists[idx], wanted, "");
  }

  lemma ClearedWellFormed(lists: Lists, mtype: nat, info: ClassInfo, isChild: bool)
    requires WellFormed(lists) && mtype < 4
    ensures var l := Cleared(lists, mtype, info, isChild);
            WellFormed(l) && (info.isAi ==> AiCount(l[mtype]) == 0)
  {
    var l1 := if isChild then lists else KeepAll(lists, (n: Nugget) => !IsOutdated(n, info.mask));
    KeepAllWellFormed(lists, (n: Nugget) => !IsOutdated(n, info.mask));
    KeepInWellFormed(l1, mtype, (n: Nugget) => !n.ai);
    var l2 := if info.isAi then KeepIn(l1, mtype, (n: Nugget) => !n.ai) else l1;
    KeepInWellFormed(l2, mtype, (n: Nugget) => !n.slot7);
    if info.isAi {
      KeepCounts(l1[mtype], (n: Nugget) => !n.ai, "");
      CountZero(l2[mtype], "");
      KeepCounts(l2[mtype], (n: Nugget) => !n.slot7, "");
    }
  }

  lemma WithoutTagFree(lists: Lists, tag: string)
    ensures TotalCount(WithoutTag(lists, tag), tag) == 0
  {
    forall i | 0 <= i < 4 ensures TagCount(WithoutTag(lists, tag)[i], tag) == 0 {
      KeepCounts(lists[i], (n: Nugget) => n.tag != tag, tag);
      CountZero(WithoutTag(lists, tag)[i], tag);
    }
  }

  /** The modules that a removal finds carry the tag, and there are some exactly when the tag is in use. */
  lemma LastHit(l: seq<Nugget>, tag: string)
    ensures Tagged(l, tag) == [] <==> TagCount(l, tag) == 0
    ensures var hit := Tagged(l, tag); hit != [] ==> hit[|hit| - 1] in l && hit[|hit| - 1].tag == tag
  {
    KeepCounts(l, (n: Nugget) => n.tag == tag, tag);
    CountZero(l, tag);
    var hit := Tagged(l, tag);
    if hit == [] {
      NoHitMeansFree(l, tag);
    } else {
      assert hit[|hit| - 1] in hit;
    }
  }

  lemma NoHitMeansFree(l: seq<Nugget>, tag: string)
    requires Tagged(l, tag) == []
    ensures TagCount(l, tag) == 0
  {
    KeepCounts(l, (n: Nugget) => n.tag == tag, tag);
    CountZero(l, tag);
    forall n | n in l ensures n.tag != tag {
      assert n.tag == tag ==> n in Tagged(l, tag);
    }
  }

  /** The tag check keeps the lists well formed, and frees the tag when it lets the declaration pass. */
  lemma {:induction false} TagCheckedKeeps(lists: Lists, idx: nat, d: Decl, isChild: bool)
    requires WellFormed(lists) && idx <= 4
    requires forall i :: 0 <= i < idx ==> TagCount(lists[i], d.tag) == 0
    ensures var (l, free) := TagChecked(lists, idx, d, isChild);
            && WellFormed(l) && (free ==> TotalCount(l, d.tag) == 0)
            && (forall i :: 0 <= i < 4 ==> AiCount(l[i]) <= AiCount(lists[i]))
    decreases 4 - idx
  {
    if idx < 4 {
      var hit := Tagged(lists[idx], d.tag);
      if hit == [] {
        NoHitMeansFree(lists[idx], d.tag);
        TagCheckedKeeps(lists, idx + 1, d, isChild);
      } else if isChild && (idx != 1 || hit[0].cls == d.cls) {
        var without := WithoutTag(lists, d.tag);
        KeepAllWellFormed(lists, (n: Nugget) => n.tag != d.tag);
        WithoutTagFree(lists, d.tag);
        forall i | 0 <= i < 4 ensures AiCount(without[i]) <= AiCount(lists[i]) {
          KeepCounts(lists[i], (n: Nugget) => n.tag != d.tag, "");
        }
        assert forall i :: 0 <= i <= idx ==> TagCount(without[i], d.tag) == 0;
        TagCheckedKeeps(without, idx + 1, d, isChild);
      }
    }
  }

  lemma AppendCounts(l: seq<Nugget>, n: Nugget, tag: string)
    ensures TagCount(l + [n], tag) == TagCount(l, tag) + (if n.tag == tag then 1 else 0)
    ensures AiCount(l + [n]) == AiCount(l) + (if n.ai then 1 else 0)
  {
    assert (l + [n])[..|l|] == l;
  }

  lemma AppendWellFormed(lists: Lists, idx: nat, n: Nugget)
    requires WellFormed(lists) && idx < 4
    requires TotalCount(lists, n.tag) == 0 && (n.ai ==> AiCount(lists[idx]) == 0)
    ensures WellFormed(lists[idx := lists[idx] + [n]])
  {
    var more := lists[idx := lists[idx] + [n]];
    forall tag ensures TotalCount(more, tag) <= 1 {
      assert TotalCount(lists, tag) <= 1;
      AppendCounts(lists[idx], n, tag);
    }
    AppendCounts(lists[idx], n, "");
  }

  lemma DeclaredWellFormed(lists: Lists, d: Decl, reg: Registry, isChild: bool)
    requires WellFormed(lists)
    ensures WellFormed(Declared(lists, d, reg, isChild))
  {
    var info := Lookup(reg, d).0;
    if info.Some? {
      var mtype := TypeOf(d.kind);
      var cleared := Cleared(lists, mtype, info.value, isChild);
      ClearedWellFormed(lists, mtype, info.value, isChild);
      TagCheckedKeeps(cleared, 0, d, isChild);
      var (checked, free) := TagChecked(cleared, 0, d, isChild);
      if free {
        AppendWellFormed(checked, mtype, NuggetOf(d, info.value));
      }
    }
  }

  lemma {:induction false} AppliedAllWellFormed(lists: Lists, ops: seq<Op>, reg: Registry, isChild: bool)
    requires WellFormed(lists)
    ensures WellFormed(AppliedAll(lists, ops, reg, isChild))
  {
    if ops != [] {
      var n := |ops| - 1;
      AppliedAllWellFormed(lists, ops[..n], reg, isChild);
      var mid := AppliedAll(lists, ops[..n], reg, isChild);
      match ops[n]
      case Declare(d) => DeclaredWellFormed(mid, d, reg, isChild);
      case Remove(tag) => KeepAllWellFormed(mid, (m: Nugget) => m.tag != tag);
      case StartReplace(tag) => KeepAllWellFormed(mid, (m: Nugget) => m.tag != tag);
    }
  }

  lemma {:induction false} MarkedCounts(l: seq<Nugget>, tag: string)
    ensures TagCount(Marked(l), tag) == TagCount(l, tag) && AiCount(Marked(l)) == AiCount(l)
    ensures forall n :: n in Marked(l) ==> n.copied
  {
    if l != [] {
      MarkedCounts(l[..|l| - 1], tag);
    }
  }

  lemma CopyWellFormed(lists: Lists)
    requires WellFormed(lists)
    ensures WellFormed(CopyOf(lists))
  {
    forall tag ensures TotalCount(CopyOf(lists), tag) <= 1 {
      assert TotalCount(lists, tag) <= 1;
      MarkedCounts(lists[0], tag);
      MarkedCounts(lists[1], tag);
      MarkedCounts(lists[2], tag);
      MarkedCounts(lists[3], tag);
    }
    forall i | 0 <= i < 4 ensures AiCount(CopyOf(lists)[i]) <= 1 {
      MarkedCounts(lists[i], "");
    }
  }

  /** Every template that any list of definitions builds has unique tags and at most one AI module per list. */
  lemma {:induction false} BuiltWellFormed(ods: seq<ObjectDef>, reg: Registry)
    ensures forall name :: name in Built(ods, reg) ==> WellFormed(Built(ods, reg)[name])
  {
    if ods != [] {
      var n := |ods| - 1;
      BuiltWellFormed(ods[..n], reg);
      DefinedWellFormed(Built(ods[..n], reg), ods[n], reg);
    }
  }

  lemma DefinedWellFormed(lib: Library, od: ObjectDef, reg: Registry)
    requires forall name :: name in lib ==> WellFormed(lib[name])
    ensures forall name :: name in Defined(lib, od, reg) ==> WellFormed(Defined(lib, od, reg)[name])
  {
    var first := Initial(lib, od.name);
    if DEFAULT_TEMPLATE in lib {
      CopyWellFormed(lib[DEFAULT_TEMPLATE]);
    }
    assert WellFormed(first);
    var present := lib[od.name := first];
    if od.parent == "" {
      AppliedAllWellFormed(first, od.ops, reg, od.kind == ChildObject);
    } else if od.parent in present {
      CopyWellFormed(present[od.parent]);
      AppliedAllWellFormed(CopyOf(present[od.parent]), od.ops, reg, od.kind == ChildObject);
    }
  }

  // ----- copied modules give way to declared ones

  ghost predicate InLists(lists: Lists, n: Nugget) {
    exists i :: 0 <= i < 4 && n in lists[i]
  }

  /** No copied module that is not inheritable shares an interface bit with a module the template declared itself. */
  ghost predicate NoOutdated(lists: Lists) {
    forall own, stale :: InLists(lists, own) && InLists(lists, stale) && !own.copied ==> !IsOutdated(stale, own.mask)
  }

  /** Every module of l is in lists. */
  ghost predicate IsPartOf(l: Lists, lists: Lists) {
    forall n :: InLists(l, n) ==> InLists(lists, n)
  }

  lemma KeepAllMembers(lists: Lists, wanted: Nugget -> bool)
    ensures forall n :: InLists(KeepAll(lists, wanted), n) <==> InLists(lists, n) && wanted(n)
  {
    forall i | 0 <= i < 4 ensures forall n :: n in KeepAll(lists, wanted)[i] <==> n in lists[i] && wanted(n) {
      KeepCounts(lists[i], wanted, "");
    }
  }

  lemma KeepInMembers(lists: Lists, idx: nat, wanted: Nugget -> bool)
    requires idx < 4
    ensures IsPartOf(KeepIn(lists, idx, wanted), lists)
  {
    KeepCounts(lists[idx], wanted, "");
  }

  lemma {:induction false} TagCheckedMembers(lists: Lists, idx: nat, d: Decl, isChild: bool)
    requires idx <= 4
    ensures IsPartOf(TagChecked(lists, idx, d, isChild).0, lists)
    decreases 4 - idx
  {
    if idx < 4 {
      KeepAllMembers(lists, (n: Nugget) => n.tag != d.tag);
      TagCheckedMembers(lists, idx + 1, d, isChild);
      TagCheckedMembers(WithoutTag(lists, d.tag), idx + 1, d, isChild);
    }
  }

  lemma ClearedMembers(lists: Lists, mtype: nat, info: ClassInfo)
    requires mtype < 4
    ensures IsPartOf(Cleared(lists, mtype, info, false), lists)
    ensures forall n :: InLists(Cleared(lists, mtype, info, false), n) ==> !IsOutdated(n, info.mask)
  {
    var l1 := KeepAll(lists, (n: Nugget) => !IsOutdated(n, info.mask));
    KeepAllMembers(lists, (n: Nugget) => !IsOutdated(n, info.mask));
    KeepInMembers(l1, mtype, (n: Nugget) => !n.ai);
  }

  lemma DeclaredNoOutdated(lists: Lists, d: Decl, reg: Registry)
    requires NoOutdated(lists)
    ensures NoOutdated(Declared(lists, d, reg, false))
  {
    var info := Lookup(reg, d).0;
    if info.Some? {
      var mtype := TypeOf(d.kind);
      var cleared := Cleared(lists, mtype, info.value, false);
      ClearedMembers(lists, mtype, info.value);
      TagCheckedMembers(cleared, 0, d, false);
      var (checked, free) := TagChecked(cleared, 0, d, false);
      var after := Declared(lists, d, reg, false);
      var added := NuggetOf(d, info.value);
      forall n | InLists(after, n) ensures InLists(checked, n) || n == added {
        var i :| 0 <= i < 4 && n in after[i];
      }
    }
  }

  lemma {:induction false} AppliedAllNoOutdated(lists: Lists, ops: seq<Op>, reg: Registry)
    requires NoOutdated(lists)
    ensures NoOutdated(AppliedAll(lists, ops, reg, false))
  {
    if ops != [] {
      var n := |ops| - 1;
      AppliedAllNoOutdated(lists, ops[..n], reg);
      var mid := AppliedAll(lists, ops[..n], reg, false);
      match ops[n]
      case Declare(d) => DeclaredNoOutdated(mid, d, reg);
      case Remove(tag) => KeepAllMembers(mid, (m: Nugget) => m.tag != tag);
      case StartReplace(tag) => KeepAllMembers(mid, (m: Nugget) => m.tag != tag);
    }
  }

  lemma CopyNoOutdated(lists: Lists)
    ensures NoOutdated(CopyOf(lists))
  {
    forall n | InLists(CopyOf(lists), n) ensures n.copied {
      var i :| 0 <= i < 4 && n in CopyOf(lists)[i];
      MarkedCounts(lists[i], "");
    }
  }

  ghost predicate NeverChild(ods: seq<ObjectDef>, name: string) {
    forall k :: 0 <= k < |ods| && ods[k].name == name ==> ods[k].kind != ChildObject
  }

  /** A template that no ChildObject block ever extends keeps no outdated copies, whatever the others do. */
  lemma {:induction false} BuiltNoOutdated(ods: seq<ObjectDef>, reg: Registry, name: string)
    requires NeverChild(ods, name) && name in Built(ods, reg)
    ensures NoOutdated(Built(ods, reg)[name])
  {
    var n := |ods| - 1;
    var lib, od := Built(ods[..n], reg), ods[n];
    if name in lib {
      BuiltNoOutdated(ods[..n], reg, name);
    }
    if od.name == name {
      var first := Initial(lib, name);
      if DEFAULT_TEMPLATE in lib {
        CopyNoOutdated(lib[DEFAULT_TEMPLATE]);
      }
      assert NoOutdated(first);
      AppliedAllNoOutdated(first, od.ops, reg);
      var present := lib[name := first];
      if od.parent in present {
        CopyNoOutdated(present[od.parent]);
        AppliedAllNoOutdated(CopyOf(present[od.parent]), od.ops, reg);
      }
    }
  }

  lemma MaskOne()
    ensures !Shares(1, BODY_MASK) && Shares(1, 1)
  {
    BitwiseCons(And, 1, 0, 0, 16);
    AndZero(16);
    BitwiseCons(And, 1, 0, 1, 0);
    AndZero(0);
  }

  lemma {:induction false} NotTagged(l: seq<Nugget>, tag: string)
    requires forall n :: n in l ==> n.tag != tag
    ensures Tagged(l, tag) == []
  {
    if l != [] {
      NotTagged(l[..|l| - 1], tag);
      assert l[|l| - 1] in l;
    }
  }

  lemma UnusedTagPasses(lists: Lists, idx: nat, d: Decl, isChild: bool)
    requires idx <= 4 && forall i :: idx <= i < 4 ==> Tagged(lists[i], d.tag) == []
    ensures TagChecked(lists, idx, d, isChild) == (lists, true)
    decreases 4 - idx
  {
  }

  // ----- ChildObject blocks are exempt from the clearing rule

  /**
   The modules that give way to a declaration in a ChildObject block: the tag's, and AI or slot-7 ones of
   its own list.
   */
  predicate GivesWay(n: Nugget, i: nat, d: Decl, info: ClassInfo) {
    n.tag == d.tag || (i == TypeOf(d.kind) && ((info.isAi && n.ai) || (info.slot7 && n.slot7)))
  }

  ghost predicate AllOutdatedGiveWay(lists: Lists, d: Decl, info: ClassInfo) {
    forall i: nat, n :: i < 4 && n in lists[i] && IsOutdated(n, info.mask) ==> GivesWay(n, i, d, info)
  }

  /** Exactly the modules with the tag are gone once it is free. */
  lemma {:induction false} TagCheckedExact(lists: Lists, idx: nat, d: Decl, isChild: bool)
    requires idx <= 4 && TagChecked(lists, idx, d, isChild).1
    requires forall i: nat, n :: i < idx && n in lists[i] ==> n.tag != d.tag
    ensures var after := TagChecked(lists, idx, d, isChild).0;
            forall i: nat, n :: i < 4 ==> (n in after[i] <==> n in lists[i] && n.tag != d.tag)
    decreases 4 - idx
  {
    if idx < 4 {
      LastHit(lists[idx], d.tag);
      CountZero(lists[idx], d.tag);
      if Tagged(lists[idx], d.tag) == [] {
        TagCheckedExact(lists, idx + 1, d, isChild);
      } else {
        KeptByTag(lists, d.tag);
        TagCheckedExact(WithoutTag(lists, d.tag), idx + 1, d, isChild);
      }
    }
  }

  lemma KeptByTag(lists: Lists, tag: string)
    ensures forall i: nat, n :: i < 4 ==> (n in WithoutTag(lists, tag)[i] <==> n in lists[i] && n.tag != tag)
  {
    forall i: nat | i < 4 ensures forall n :: n in WithoutTag(lists, tag)[i] <==> n in lists[i] && n.tag != tag {
      KeepCounts(lists[i], (n: Nugget) => n.tag != tag, tag);
    }
  }

  /** What the clearing rules leave to a ChildObject block. */
  lemma ChildCleared(lists: Lists, mtype: nat, info: ClassInfo)
    requires mtype < 4
    ensures var after := Cleared(lists, mtype, info, true);
            forall i: nat, n :: i < 4 ==>
              (n in after[i] <==> n in lists[i] && !(i == mtype && ((info.isAi && n.ai) || (info.slot7 && n.slot7))))
  {
    var l2 := if info.isAi then KeepIn(lists, mtype, (n: Nugget) => !n.ai) else lists;
    KeepCounts(lists[mtype], (n: Nugget) => !n.ai, "");
    KeepCounts(l2[mtype], (n: Nugget) => !n.slot7, "");
  }

  /** A problem-free declaration: what stays of the lists, and the declared module behind it. */
  lemma ChildDeclared(lists: Lists, d: Decl, reg: Registry)
    requires DeclareProblems(lists, d, reg, true, None) == []
    ensures var info := Lookup(reg, d).0.value;
            forall n :: InLists(Declared(lists, d, reg, true), n)
              <==> n == NuggetOf(d, info) || exists i: nat :: i < 4 && n in lists[i] && !GivesWay(n, i, d, info)
  {
    var info := Lookup(reg, d).0.value;
    var cleared := Cleared(lists, TypeOf(d.kind), info, true);
    ChildCleared(lists, TypeOf(d.kind), info);
    TagCheckedExact(cleared, 0, d, true);
    Appended(TagChecked(cleared, 0, d, true).0, TypeOf(d.kind), NuggetOf(d, info));
    forall n, i: nat | i < 4
      ensures n in TagChecked(cleared, 0, d, true).0[i] <==> n in lists[i] && !GivesWay(n, i, d, info)
    {
    }
  }

  lemma Appended(lists: Lists, mtype: nat, added: Nugget)
    requires mtype < 4
    ensures var after: Lists := lists[mtype := lists[mtype] + [added]];
            forall n :: InLists(after, n) <==> InLists(lists, n) || n == added
  {
    var after: Lists := lists[mtype := lists[mtype] + [added]];
    assert added in after[mtype];
    forall n | InLists(lists, n) ensures InLists(after, n) {
      var i :| 0 <= i < 4 && n in lists[i];
      assert n in after[i];
    }
  }

  /**
   Whether a ChildObject declaration keeps a template free of outdated modules: exactly when it is
   rejected, or every module that it outdates gives way to it by tag, or as the AI or slot-7 module of
   its list.
   */
  lemma ChildKeepsNoOutdatedIff(lists: Lists, d: Decl, reg: Registry)
    requires NoOutdated(lists)
    ensures NoOutdated(Declared(lists, d, reg, true))
       <==> DeclareProblems(lists, d, reg, true, None) != [] || AllOutdatedGiveWay(lists, d, Lookup(reg, d).0.value)
  {
    if DeclareProblems(lists, d, reg, true, None) == [] {
      ChildDeclared(lists, d, reg);
      OutdatedAfter(lists, Declared(lists, d, reg, true), d, Lookup(reg, d).0.value);
    } else {
      RejectedShrinks(lists, d, reg);
    }
  }

  lemma RejectedShrinks(lists: Lists, d: Decl, reg: Registry)
    requires DeclareProblems(lists, d, reg, true, None) != []
    ensures IsPartOf(Declared(lists, d, reg, true), lists)
  {
    var info := Lookup(reg, d).0;
    if info.Some? {
      var cleared := Cleared(lists, TypeOf(d.kind), info.value, true);
      ChildCleared(lists, TypeOf(d.kind), info.value);
      TagCheckedMembers(cleared, 0, d, true);
      forall n | InLists(cleared, n) ensures InLists(lists, n) {
        var i: nat :| i < 4 && n in cleared[i];
      }
    }
  }

  lemma OutdatedAfter(lists: Lists, after: Lists, d: Decl, info: ClassInfo)
    requires NoOutdated(lists)
    requires forall n :: InLists(after, n)
               <==> n == NuggetOf(d, info) || exists i: nat :: i < 4 && n in lists[i] && !GivesWay(n, i, d, info)
    ensures NoOutdated(after) <==> AllOutdatedGiveWay(lists, d, info)
  {
    var added := NuggetOf(d, info);
    assert InLists(after, added);
    if NoOutdated(after) {
      forall i: nat, n | i < 4 && n in lists[i] && IsOutdated(n, info.mask) ensures GivesWay(n, i, d, info) {
        assert GivesWay(n, i, d, info) || InLists(after, n);
      }
    }
    if AllOutdatedGiveWay(lists, d, info) {
      forall own, stale | InLists(after, own) && InLists(after, stale) && !own.copied
        ensures !IsOutdated(stale, own.mask)
      {
        StaysFresh(lists, after, d, info, own, stale);
      }
    }
  }

  lemma StaysFresh(lists: Lists, after: Lists, d: Decl, info: ClassInfo, own: Nugget, stale: Nugget)
    requires NoOutdated(lists) && AllOutdatedGiveWay(lists, d, info) && !own.copied
    requires own == NuggetOf(d, info) || exists i: nat :: i < 4 && own in lists[i] && !GivesWay(own, i, d, info)
    requires stale == NuggetOf(d, info) || exists i: nat :: i < 4 && stale in lists[i] && !GivesWay(stale, i, d, info)
    ensures !IsOutdated(stale, own.mask)
  {
    if stale != NuggetOf(d, info) {
      var i: nat :| i < 4 && stale in lists[i] && !GivesWay(stale, i, d, info);
      assert InLists(lists, stale);
      if own != NuggetOf(d, info) {
        assert InLists(lists, own);
      }
    }
  }

  /** A declaration that clears nothing and whose tag is unused is appended. */
  lemma UnusedDeclared(lists: Lists, d: Decl, reg: Registry, info: ClassInfo, isChild: bool)
    requires Lookup(reg, d) == (Some(info), []) && Cleared(lists, TypeOf(d.kind), info, isChild) == lists
    requires forall i :: 0 <= i < 4 ==> Tagged(lists[i], d.tag) == []
    ensures Declared(lists, d, reg, isChild) == lists[TypeOf(d.kind) := lists[TypeOf(d.kind)] + [NuggetOf(d, info)]]
  {
    UnusedTagPasses(lists, 0, d, isChild);
  }

  const PARENT_DECL := Decl(Behavior, "A", "t1", Normal)
  const CHILD_DECL := Decl(Behavior, "B", "t2", Normal)
  const ONE_BIT := ClassInfo(1, false, false)

  /** Two classes of one and the same interface bit. */
  const TWO_CLASSES: Registry := map[("A", 0) := ONE_BIT, ("B", 0) := ONE_BIT]

  /** An Object with a module, and a ChildObject of it that declares a module of the other class. */
  const PARENT := ObjectDef(Object, "P", "", [Declare(PARENT_DECL)])
  const CHILD := ObjectDef(ChildObject, "C", "P", [Declare(CHILD_DECL)])

  lemma BuiltParent()
    ensures Built([PARENT], TWO_CLASSES) == map["P" := [[NuggetOf(PARENT_DECL, ONE_BIT)], [], [], []]]
  {
    MaskOne();
    var empty: Lists := [[], [], [], []];
    assert Lookup(TWO_CLASSES, PARENT_DECL) == (Some(ONE_BIT), []);
    assert Cleared(empty, 0, ONE_BIT, false) == empty;
    UnusedDeclared(empty, PARENT_DECL, TWO_CLASSES, ONE_BIT, false);
    var own := NuggetOf(PARENT_DECL, ONE_BIT);
    assert empty[0] + [own] == [own];
    assert empty[0 := empty[0] + [own]] == [[own], [], [], []];
    OneOp(empty, PARENT_DECL, TWO_CLASSES, false);
    assert [PARENT][..0] == [];
    assert Built([], TWO_CLASSES) == map[];
    assert Defined(map[], PARENT, TWO_CLASSES) == map["P" := [[own], [], [], []]];
  }

  lemma OneOp(lists: Lists, d: Decl, reg: Registry, isChild: bool)
    ensures AppliedAll(lists, [Declare(d)], reg, isChild) == Declared(lists, d, reg, isChild)
  {
    assert [Declare(d)][..0] == [];
    assert AppliedAll(lists, [], reg, isChild) == lists;
  }

  lemma ChildLists(copied: Nugget)
    requires copied == NuggetOf(PARENT_DECL, ONE_BIT).(copied := true)
    ensures Declared([[copied], [], [], []], CHILD_DECL, TWO_CLASSES, true)
         == [[copied, NuggetOf(CHILD_DECL, ONE_BIT)], [], [], []]
  {
    var lists: Lists := [[copied], [], [], []];
    MaskOne();
    assert Lookup(TWO_CLASSES, CHILD_DECL) == (Some(ONE_BIT), []);
    assert "t1"[1] != "t2"[1];
    NotTagged([copied], "t2");
    NotTagged([], "t2");
    UnusedDeclared(lists, CHILD_DECL, TWO_CLASSES, ONE_BIT, true);
    var own := NuggetOf(CHILD_DECL, ONE_BIT);
    assert lists[0] + [own] == [copied, own];
    assert lists[0 := lists[0] + [own]] == [[copied, own], [], [], []];
  }

  lemma BuiltChild(copied: Nugget)
    requires copied == NuggetOf(PARENT_DECL, ONE_BIT).(copied := true)
    ensures var lib := Built([PARENT, CHILD], TWO_CLASSES);
            "C" in lib && lib["C"] == [[copied, NuggetOf(CHILD_DECL, ONE_BIT)], [], [], []]
  {
    var lib := Built([PARENT], TWO_CLASSES);
    BuiltParent();
    assert [PARENT, CHILD][..1] == [PARENT];
    assert |DEFAULT_TEMPLATE| != |"P"| && "C"[0] != "P"[0];
    var own := NuggetOf(PARENT_DECL, ONE_BIT);
    assert [own][..0] == [];
    assert Marked([own]) == [copied];
    ChildLists(copied);
    OneOp([[copied], [], [], []], CHILD_DECL, TWO_CLASSES, true);
  }

  /** Two blocks that build a ChildObject template with an outdated module beside its own. */
  lemma ChildKeepsOutdated()
    ensures var lib := Built([PARENT, CHILD], TWO_CLASSES); "C" in lib && !NoOutdated(lib["C"])
  {
    var copied := NuggetOf(PARENT_DECL, ONE_BIT).(copied := true);
    var own := NuggetOf(CHILD_DECL, ONE_BIT);
    BuiltChild(copied);
    MaskOne();
    var lists := Built([PARENT, CHILD], TWO_CLASSES)["C"];
    assert copied in lists[0] && own in lists[0];
    assert InLists(lists, copied) && InLists(lists, own) && IsOutdated(copied, own.mask);
  }

  /** A declaration that meets no problem is listed: last of its list, and the only module with its tag. */
  lemma DeclaredIsListed(lists: Lists, d: Decl, reg: Registry, isChild: bool)
    requires WellFormed(lists) && DeclareProblems(lists, d, reg, isChild, None) == []
    ensures var after := Declared(lists, d, reg, isChild);
            var own := after[TypeOf(d.kind)];
            && own != [] && own[|own| - 1] == NuggetOf(d, Lookup(reg, d).0.value)
            && TotalCount(after, d.tag) == 1
  {
    var info := Lookup(reg, d).0.value;
    var mtype := TypeOf(d.kind);
    var cleared := Cleared(lists, mtype, info, isChild);
    ClearedWellFormed(lists, mtype, info, isChild);
    TagCheckedKeeps(cleared, 0, d, isChild);
    AppendCounts(TagChecked(cleared, 0, d, isChild).0[mtype], NuggetOf(d, info), d.tag);
  }

  function DeclareProblems(lists: Lists, d: Decl, reg: Registry, isChild: bool, replacing: Replacing): seq<Problem> {
    var (info, problems) := Lookup(reg, d);
    if info.None? then problems
    else
      ReplaceProblems(d, replacing)
      + (if TagChecked(Cleared(lists, TypeOf(d.kind), info.value, isChild), 0, d, isChild).1 then [] else [TagUsed])
  }

  // ----- problems of whole blocks and lists

  /** The class of the last module with the tag, in the first n lists. */
  function ClassOf(lists: Lists, tag: string, n: nat): (cls: Option<string>)
    requires n <= 4
  {
    if n == 0 then None
    else
      var hit := Tagged(lists[n - 1], tag);
      if hit != [] then Some(hit[|hit| - 1].cls) else ClassOf(lists, tag, n - 1)
  }

  lemma {:induction false} ClassOfUsed(lists: Lists, tag: string, n: nat)
    requires n <= 4
    ensures ClassOf(lists, tag, n).None? <==> forall i :: 0 <= i < n ==> TagCount(lists[i], tag) == 0
    ensures ClassOf(lists, tag, n).Some? ==>
              exists m :: InLists(lists, m) && m.tag == tag && m.cls == ClassOf(lists, tag, n).value
  {
    if n > 0 {
      ClassOfUsed(lists, tag, n - 1);
      LastHit(lists[n - 1], tag);
      var hit := Tagged(lists[n - 1], tag);
      if hit != [] {
        assert InLists(lists, hit[|hit| - 1]);
      }
    }
  }

  /** The class and tag that a replacement started with. */
  type Replacing = Option<(Option<string>, string)>

  /** The replacement that the operations have started last. */
  function ReplacingAfter(lists: Lists, ops: seq<Op>, reg: Registry, isChild: bool): Replacing {
    if ops == [] then None
    else match ops[|ops| - 1]
      case StartReplace(tag) => Some((ClassOf(AppliedAll(lists, ops[..|ops| - 1], reg, isChild), tag, 4), tag))
      case Declare(_) => ReplacingAfter(lists, ops[..|ops| - 1], reg, isChild)
      case Remove(_) => ReplacingAfter(lists, ops[..|ops| - 1], reg, isChild)
  }

  function OpProblems(lists: Lists, op: Op, replacing: Replacing, reg: Registry, isChild: bool): seq<Problem> {
    match op
    case Declare(d) => DeclareProblems(lists, d, reg, isChild, if d.mode == Replace then replacing else None)
    case Remove(tag) => if ClassOf(lists, tag, 4).None? then [NothingToRemove] else []
    case StartReplace(tag) => if ClassOf(lists, tag, 4).None? then [NothingToReplace] else []
  }

  /** The problems of the operations of a block, each met with the lists that the ones before left. */
  function BlockProblems(lists: Lists, ops: seq<Op>, reg: Registry, isChild: bool): seq<Problem> {
    if ops == [] then []
    else
      var front := ops[..|ops| - 1];
      BlockProblems(lists, front, reg, isChild)
      + OpProblems(AppliedAll(lists, front, reg, isChild), ops[|ops| - 1], ReplacingAfter(lists, front, reg, isChild),
                   reg, isChild)
  }

  function DefineProblems(lib: Library, od: ObjectDef, reg: Registry): seq<Problem> {
    var present := lib[od.name := Initial(lib, od.name)];
    if od.parent != "" && od.parent !in present then [OriginalMissing]
    else
      BlockProblems(if od.parent != "" then CopyOf(present[od.parent]) else present[od.name], od.ops, reg,
                    od.kind == ChildObject)
  }

  function BuildProblems(ods: seq<ObjectDef>, reg: Registry): seq<Problem> {
    if ods == [] then []
    else BuildProblems(ods[..|ods| - 1], reg) + DefineProblems(Built(ods[..|ods| - 1], reg), ods[|ods| - 1], reg)
  }

  /** The names in the order of their first definition. */
  function FirstNames(ods: seq<ObjectDef>): seq<string> {
    if ods == [] then []
    else
      var names := FirstNames(ods[..|ods| - 1]);
      if ods[|ods| - 1].name in names then names else names + [ods[|ods| - 1].name]
  }

  lemma {:induction false} FirstNamesBuilt(ods: seq<ObjectDef>, reg: Registry)
    ensures forall name :: name in FirstNames(ods) <==> name in Built(ods, reg)
    ensures forall i, j :: 0 <= i < j < |FirstNames(ods)| ==> FirstNames(ods)[i] != FirstNames(ods)[j]
  {
    if ods != [] {
      FirstNamesBuilt(ods[..|ods| - 1], reg);
    }
  }

  // ----- the templates as the tool edits them, in place

  class Template {
    const name: string
    const kind: DefKind
    var lists: Lists

    constructor (name: string, kind: DefKind)
      ensures this.name == name && this.kind == kind && lists == [[], [], [], []]
    {
      this.name, this.kind, lists := name, kind, [[], [], [], []];
    }

    method CopyFrom(other: Template)
      modifies `lists
      ensures lists == CopyOf(old(other.lists))
    {
      lists := [Marked(other.lists[0]), Marked(other.lists[1]), Marked(other.lists[2]), Marked(other.lists[3])];
    }

    method KeepInAll(wanted: Nugget -> bool)
      modifies `lists
      ensures lists == KeepAll(old(lists), wanted)
    {
      for i := 0 to 4
        invariant forall j :: 0 <= j < i ==> lists[j] == Keep(old(lists)[j], wanted)
        invariant forall j :: i <= j < 4 ==> lists[j] == old(lists)[j]
      {
        lists := lists[i := Keep(lists[i], wanted)];
      }
    }

    /** The tag check: true if the declaration may be appended. */
    method CheckTag(d: Decl, isChild: bool) returns (free: bool)
      modifies `lists
      ensures (lists, free) == TagChecked(old(lists), 0, d, isChild)
    {
      for idx := 0 to 4
        invariant TagChecked(lists, idx, d, isChild) == TagChecked(old(lists), 0, d, isChild)
      {
        var hit := Tagged(lists[idx], d.tag);
        if hit == [] {
          continue;
        }
        if isChild && (idx != 1 || hit[0].cls == d.cls) {
          KeepInAll((n: Nugget) => n.tag != d.tag);
          continue;
        }
        return false;
      }
      free := true;
    }

    method ClearFor(mtype: nat, info: ClassInfo, isChild: bool)
      requires mtype < 4
      modifies `lists
      ensures lists == Cleared(old(lists), mtype, info, isChild)
    {
      if !isChild {
        KeepInAll((n: Nugget) => !IsOutdated(n, info.mask));
      }
      if info.isAi {
        lists := lists[mtype := Keep(lists[mtype], (n: Nugget) => !n.ai)];
      }
      if info.slot7 && isChild {
        lists := lists[mtype := Keep(lists[mtype], (n: Nugget) => !n.slot7)];
      }
    }

    method ApplyDecl(d: Decl, reg: Registry, isChild: bool, replacing: Replacing)
      returns (problems: seq<Problem>)
      modifies `lists
      ensures lists == Declared(old(lists), d, reg, isChild)
      ensures problems == DeclareProblems(old(lists), d, reg, isChild, replacing)
    {
      var (info, found) := Lookup(reg, d);
      problems := found;
      if info.None? {
        return;
      }
      var mtype := TypeOf(d.kind);
      ClearFor(mtype, info.value, isChild);
      problems := ReplaceProblems(d, replacing);
      var free := CheckTag(d, isChild);
      if !free {
        problems := problems + [TagUsed];
        return;
      }
      lists := lists[mtype := lists[mtype] + [NuggetOf(d, info.value)]];
    }

    /** RemoveModule, and the removal that ReplaceModule starts with: the class of the last module removed. */
    method RemoveTag(tag: string) returns (cls: Option<string>)
      modifies `lists
      ensures lists == WithoutTag(old(lists), tag) && cls == ClassOf(old(lists), tag, 4)
      ensures cls.None? <==> TotalCount(old(lists), tag) == 0
      ensures cls.Some? ==> exists n :: InLists(old(lists), n) && n.tag == tag && n.cls == cls.value
    {
      hide Keep;
      cls := None;
      for i := 0 to 4
        invariant forall j :: 0 <= j < i ==> lists[j] == Keep(old(lists)[j], (n: Nugget) => n.tag != tag)
        invariant forall j :: i <= j < 4 ==> lists[j] == old(lists)[j]
        invariant cls == ClassOf(old(lists), tag, i)
      {
        var hit := Tagged(lists[i], tag);
        if hit != [] {
          cls := Some(hit[|hit| - 1].cls);
        }
        lists := lists[i := Keep(lists[i], (n: Nugget) => n.tag != tag)];
      }
      ClassOfUsed(old(lists), tag, 4);
    }

    /** The operations of one block, in order. */
    method ApplyOps(ops: seq<Op>, reg: Registry, isChild: bool) returns (problems: seq<Problem>)
      modifies `lists
      ensures lists == AppliedAll(old(lists), ops, reg, isChild)
      ensures problems == BlockProblems(old(lists), ops, reg, isChild)
    {
      problems := [];
      var replacing: Replacing := None;
      for k := 0 to |ops|
        invariant lists == AppliedAll(old(lists), ops[..k], reg, isChild)
        invariant problems == BlockProblems(old(lists), ops[..k], reg, isChild)
        invariant replacing == ReplacingAfter(old(lists), ops[..k], reg, isChild)
      {
        assert ops[..k + 1][..k] == ops[..k];
        match ops[k] {
          case Declare(d) =>
            var more := ApplyDecl(d, reg, isChild, if d.mode == Replace then replacing else None);
            problems := problems + more;
          case Remove(tag) =>
            var cls := RemoveTag(tag);
            if cls.None? {
              problems := problems + [NothingToRemove];
            }
          case StartReplace(tag) =>
            var cls := RemoveTag(tag);
            if cls.None? {
              problems := problems + [NothingToReplace];
            }
            replacing := Some((cls, tag));
        }
      }
      assert ops[..|ops|] == ops;
    }
  }

  /** The objects in the dictionary hold exactly the library. */
  ghost predicate Holds(templates: map<string, Template>, lib: Library)
    reads templates.Values
  {
    && templates.Keys == lib.Keys
    && (forall name :: name in templates ==> templates[name].lists == lib[name])
    && (forall a, b :: a in templates && b in templates && a != b ==> templates[a] != templates[b])
  }

  /** The template of a definition: the existing object, or a new one with the default's modules. */
  method OpenTemplate(templates: map<string, Template>, name: string, kind: DefKind, ghost lib: Library)
    returns (tpl: Template, templates': map<string, Template>)
    requires Holds(templates, lib)
    ensures Holds(templates', lib[name := Initial(lib, name)])
    ensures templates'.Keys == templates.Keys + {name} && tpl == templates'[name]
    ensures templates'.Values == templates.Values + {tpl}
    ensures tpl !in templates.Values ==> fresh(tpl)
  {
    templates' := templates;
    if name in templates {
      tpl := templates[name];
    } else {
      tpl := new Template(name, kind);
      if DEFAULT_TEMPLATE in templates {
        tpl.CopyFrom(templates[DEFAULT_TEMPLATE]);
      }
      templates' := templates[name := tpl];
    }
    assert name in templates';
  }

  method Define(templates: map<string, Template>, od: ObjectDef, reg: Registry, ghost lib: Library)
    returns (templates': map<string, Template>, problems: seq<Problem>)
    requires Holds(templates, lib)
    modifies templates.Values
    ensures Holds(templates', Defined(lib, od, reg)) && problems == DefineProblems(lib, od, reg)
    ensures fresh(templates'.Values - templates.Values)
  {
    var tpl;
    tpl, templates' := OpenTemplate(templates, od.name, od.kind, lib);
    ghost var present := lib[od.name := Initial(lib, od.name)];
    if od.parent != "" && od.parent !in templates' {
      return templates', [OriginalMissing];
    }
    problems := Fill(templates', od, reg, present);
  }

  /** The block's modules: those of its parent, edited by its operations. */
  method Fill(templates: map<string, Template>, od: ObjectDef, reg: Registry, ghost present: Library)
    returns (problems: seq<Problem>)
    requires Holds(templates, present) && od.name in templates && (od.parent != "" ==> od.parent in templates)
    modifies templates[od.name]
    ensures var start := if od.parent != "" then CopyOf(present[od.parent]) else present[od.name];
            && Holds(templates, present[od.name := AppliedAll(start, od.ops, reg, od.kind == ChildObject)])
            && problems == BlockProblems(start, od.ops, reg, od.kind == ChildObject)
  {
    var tpl := templates[od.name];
    if od.parent != "" {
      tpl.CopyFrom(templates[od.parent]);
    }
    problems := tpl.ApplyOps(od.ops, reg, od.kind == ChildObject);
    assert forall other :: other in templates && other != od.name ==> templates[other] != tpl;
  }

  method BuildTemplates(ods: seq<ObjectDef>, reg: Registry)
    returns (templates: map<string, Template>, order: seq<string>, problems: seq<Problem>)
    ensures Holds(templates, Built(ods, reg)) && fresh(templates.Values)
    ensures order == FirstNames(ods) && problems == BuildProblems(ods, reg)
  {
    templates, order, problems := map[], [], [];
    for k := 0 to |ods|
      invariant Holds(templates, Built(ods[..k], reg)) && fresh(templates.Values)
      invariant order == FirstNames(ods[..k]) && problems == BuildProblems(ods[..k], reg)
    {
      assert ods[..k + 1][..k] == ods[..k];
      FirstNamesBuilt(ods[..k], reg);
      if ods[k].name !in templates {
        order := order + [ods[k].name];
      }
      var more;
      templates, more := Define(templates, ods[k], reg, Built(ods[..k], reg));
      problems := problems + more;
    }
    assert ods[..|ods|] == ods;
  }
}
