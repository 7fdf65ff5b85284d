/**
 The maximum-likelihood bracket parse of tools/object_oracle/object_oracle.py: dynamic programming
 over nesting depth with back links, proved to find a cheapest legal depth path or that there is
 none; and the extents of the object definitions on such a path.
 */
module Structure {
  import opened Options

  datatype ObjectKind = Object | ChildObject | ObjectReskin

  /**
   One significant line. isHeader: its first token is a top-level keyword and it has no '='.
   openPrior and plainPrior are -log of the learned chances that it opens a block or does not.
   */
  datatype Item = Item(isEnd: bool, isHeader: bool, indent: nat, openPrior: real, plainPrior: real,
                       kind: Option<ObjectKind>, hasEquals: bool, words: nat)
  {
    /** An End is no top-level keyword, and a header has no '='. */
    predicate Valid() {
      !(isEnd && isHeader) && (isHeader ==> !hasEquals) && (isEnd ==> kind == None) && words >= 1
    }

    predicate HeaderCol0() {
      isHeader && indent == 0
    }
  }

  const DMAX := 40
  const FORCED_CLOSE_COST := 40.0
  const TOPLEVEL_JUNK_COST := 12.0

  // ----- legal steps and what they cost

  /** What the next line's indentation adds to the two priors. */
  function OpenCost(items: seq<Item>, k: nat): real
    requires k < |items|
  {
    var it := items[k];
    if k + 1 == |items| then it.openPrior
    else if items[k + 1].isEnd then
      if items[k + 1].indent >= it.indent then it.openPrior + 0.5 else it.openPrior + 1.5
    else if items[k + 1].indent > it.indent then it.openPrior
    else it.openPrior + 1.5
  }

  function PlainCost(items: seq<Item>, k: nat): real
    requires k < |items|
  {
    var it := items[k];
    if k + 1 == |items| then it.plainPrior
    else if items[k + 1].isEnd then
      if items[k + 1].indent >= it.indent then it.plainPrior + 0.5 else it.plainPrior
    else if items[k + 1].indent > it.indent then it.plainPrior + 1.5
    else it.plainPrior
  }

  /**
   The legal steps over item k from depth d: an End closes one level, a line outside every block
   opens one, a column-0 header inside one closes everything and opens one, and any other line is
   free to open a level, within DMAX, or not.
   */
  predicate CanStep(items: seq<Item>, k: nat, d: nat, opens: bool)
    requires k < |items|
  {
    if items[k].isEnd then d >= 1 && !opens
    else if d == 0 || items[k].HeaderCol0() then opens
    else opens ==> d + 1 <= DMAX
  }

  function StepTo(items: seq<Item>, k: nat, d: nat, opens: bool): nat
    requires k < |items| && CanStep(items, k, d, opens)
  {
    if items[k].isEnd then d - 1
    else if d == 0 || items[k].HeaderCol0() then 1
    else if opens then d + 1
    else d
  }

  function StepCost(items: seq<Item>, k: nat, d: nat, opens: bool): real
    requires k < |items| && CanStep(items, k, d, opens)
  {
    if items[k].isEnd then 0.0
    else if d == 0 then if items[k].isHeader then 0.0 else TOPLEVEL_JUNK_COST
    else if items[k].HeaderCol0() then FORCED_CLOSE_COST * d as real
    else if opens then OpenCost(items, k)
    else PlainCost(items, k)
  }

  /** The depth before each line, and whether the line opens a block. */
  datatype Path = Path(depths: seq<nat>, openers: seq<bool>)

  function Front(p: Path): Path
    requires p.depths != [] && p.openers != []
  {
    Path(p.depths[..|p.depths| - 1], p.openers[..|p.openers| - 1])
  }

  /** p is a legal way over the first |p.depths| lines, from depth 0 to depth d. */
  ghost predicate IsWay(items: seq<Item>, p: Path, d: nat)
    decreases |p.depths|
  {
    && |p.depths| == |p.openers| <= |items|
    && (if p.depths == [] then d == 0
        else
          var k := |p.depths| - 1;
          && IsWay(items, Front(p), p.depths[k])
          && CanStep(items, k, p.depths[k], p.openers[k])
          && StepTo(items, k, p.depths[k], p.openers[k]) == d)
  }

  ghost function WayCost(items: seq<Item>, p: Path, d: nat): real
    requires IsWay(items, p, d)
    decreases |p.depths|
  {
    if p.depths == [] then 0.0
    else
      var k := |p.depths| - 1;
      WayCost(items, Front(p), p.depths[k]) + StepCost(items, k, p.depths[k], p.openers[k])
  }

  /** A parse goes over all lines and ends outside every block. */
  ghost predicate IsParse(items: seq<Item>, p: Path) {
    |p.depths| == |items| && IsWay(items, p, 0)
  }

  ghost predicate IsCheapestParse(items: seq<Item>, p: Path) {
    IsParse(items, p) && forall q: Path :: IsParse(items, q) ==> WayCost(items, p, 0) <= WayCost(items, q, 0)
  }

  lemma {:induction false} WayWithinDepth(items: seq<Item>, p: Path, d: nat)
    requires IsWay(items, p, d)
    ensures d <= DMAX
    decreases |p.depths|
  {
    if p.depths != [] {
      WayWithinDepth(items, Front(p), p.depths[|p.depths| - 1]);
    }
  }

  // ----- what a way is and what it costs, line by line

  /** Line k from one depth to the next. */
  predicate LineIsLegal(it: Item, before: nat, opens: bool, after: nat) {
    if it.isEnd then !opens && before >= 1 && after == before - 1
    else if before == 0 then opens && after == 1
    else if it.isHeader && it.indent == 0 then opens && after == 1
    else after == (if opens then before + 1 else before) && (opens ==> after <= 40)
  }

  function NextDepth(p: Path, d: nat, k: nat): nat
    requires k < |p.depths|
  {
    if k + 1 < |p.depths| then p.depths[k + 1] else d
  }

  /** A way starts outside every block, and every line leads from its depth to that of the next. */
  ghost predicate IsLineByLine(items: seq<Item>, p: Path, d: nat) {
    && |p.depths| == |p.openers| <= |items|
    && (if p.depths == [] then d == 0 else p.depths[0] == 0)
    && forall k :: 0 <= k < |p.depths| ==> LineIsLegal(items[k], p.depths[k], p.openers[k], NextDepth(p, d, k))
  }

  lemma {:induction false} WayIff(items: seq<Item>, p: Path, d: nat)
    ensures IsWay(items, p, d) <==> IsLineByLine(items, p, d)
    decreases |p.depths|
  {
    if |p.depths| == |p.openers| <= |items| && p.depths != [] {
      var n := |p.depths| - 1;
      WayIff(items, Front(p), p.depths[n]);
      FrontLineByLine(items, p, d);
      StepIsLegal(items, n, p.depths[n], p.openers[n], d);
    }
  }

  lemma FrontLineByLine(items: seq<Item>, p: Path, d: nat)
    requires |p.depths| == |p.openers| <= |items| && p.depths != []
    ensures var n := |p.depths| - 1;
            IsLineByLine(items, p, d)
            <==> IsLineByLine(items, Front(p), p.depths[n]) && LineIsLegal(items[n], p.depths[n], p.openers[n], d)
  {
    var n, front := |p.depths| - 1, Front(p);
    forall k | 0 <= k < n
      ensures front.depths[k] == p.depths[k] && front.openers[k] == p.openers[k]
      ensures NextDepth(front, p.depths[n], k) == NextDepth(p, d, k)
    {
    }
    assert NextDepth(p, d, n) == d;
  }

  lemma StepIsLegal(items: seq<Item>, k: nat, d: nat, opens: bool, to: nat)
    requires k < |items|
    ensures CanStep(items, k, d, opens) && StepTo(items, k, d, opens) == to <==> LineIsLegal(items[k], d, opens, to)
  {
  }

  /** A line that is free to open a block or not. */
  predicate IsOrdinary(items: seq<Item>, p: Path, k: nat)
    requires k < |p.depths| == |p.openers| <= |items|
  {
    !items[k].isEnd && p.depths[k] >= 1 && !(items[k].isHeader && items[k].indent == 0)
  }

  /** Ordinary lines that are decided against the indentation of the next line. */
  predicate IsAgainst(items: seq<Item>, p: Path, k: nat)
    requires k < |p.depths| == |p.openers| <= |items|
  {
    IsOrdinary(items, p, k) && k + 1 < |items| &&
    var here, next := items[k].indent, items[k + 1];
    if p.openers[k] then if next.isEnd then next.indent < here else next.indent <= here
    else !next.isEnd && next.indent > here
  }

  /** Ordinary lines before an End that is no further out. */
  predicate IsBeforeEnd(items: seq<Item>, p: Path, k: nat)
    requires k < |p.depths| == |p.openers| <= |items|
  {
    IsOrdinary(items, p, k) && k + 1 < |items| && items[k + 1].isEnd && items[k + 1].indent >= items[k].indent
  }

  /** Lines outside every block that are no headers. */
  predicate IsJunk(items: seq<Item>, p: Path, k: nat)
    requires k < |p.depths| == |p.openers| <= |items|
  {
    !items[k].isEnd && p.depths[k] == 0 && !items[k].isHeader
  }

  /** The levels that a column-0 header closes by force. */
  function ForcedLevels(items: seq<Item>, p: Path, n: nat): nat
    requires n <= |p.depths| == |p.openers| <= |items|
  {
    if n == 0 then 0
    else
      ForcedLevels(items, p, n - 1)
      + (if !items[n - 1].isEnd && items[n - 1].isHeader && items[n - 1].indent == 0 then p.depths[n - 1] else 0)
  }

  /** The priors of the ordinary lines, as they are decided. */
  function ChosenPriors(items: seq<Item>, p: Path, n: nat): real
    requires n <= |p.depths| == |p.openers| <= |items|
  {
    if n == 0 then 0.0
    else
      ChosenPriors(items, p, n - 1)
      + (if !IsOrdinary(items, p, n - 1) then 0.0
         else if p.openers[n - 1] then items[n - 1].openPrior else items[n - 1].plainPrior)
  }

  /** How many of the first n lines the predicate holds of. */
  ghost function Lines(n: nat, holds: nat -> bool): nat {
    if n == 0 then 0 else Lines(n - 1, holds) + (if holds(n - 1) then 1 else 0)
  }

  ghost function Against(items: seq<Item>, p: Path): nat -> bool {
    (k: nat) => k < |p.depths| == |p.openers| <= |items| && IsAgainst(items, p, k)
  }

  ghost function BeforeEnd(items: seq<Item>, p: Path): nat -> bool {
    (k: nat) => k < |p.depths| == |p.openers| <= |items| && IsBeforeEnd(items, p, k)
  }

  ghost function Junk(items: seq<Item>, p: Path): nat -> bool {
    (k: nat) => k < |p.depths| == |p.openers| <= |items| && IsJunk(items, p, k)
  }

  /** What the first n lines of a way cost. */
  ghost function PartsCost(items: seq<Item>, p: Path, n: nat): real
    requires n <= |p.depths| == |p.openers| <= |items|
  {
    ChosenPriors(items, p, n) + 1.5 * Lines(n, Against(items, p)) as real + 0.5 * Lines(n, BeforeEnd(items, p)) as real
    + 12.0 * Lines(n, Junk(items, p)) as real + 40.0 * ForcedLevels(items, p, n) as real
  }

  lemma {:induction false} PartsOfFront(items: seq<Item>, p: Path, n: nat)
    requires n < |p.depths| == |p.openers| <= |items|
    ensures PartsCost(items, Front(p), n) == PartsCost(items, p, n)
  {
    SameParts(items, Front(p), p, n);
  }

  lemma {:induction false} SameParts(items: seq<Item>, q: Path, p: Path, n: nat)
    requires n <= |q.depths| == |q.openers| <= |p.depths| == |p.openers| <= |items|
    requires forall k :: 0 <= k < n ==> q.depths[k] == p.depths[k] && q.openers[k] == p.openers[k]
    ensures ChosenPriors(items, q, n) == ChosenPriors(items, p, n)
    ensures ForcedLevels(items, q, n) == ForcedLevels(items, p, n)
    ensures Lines(n, Against(items, q)) == Lines(n, Against(items, p))
    ensures Lines(n, BeforeEnd(items, q)) == Lines(n, BeforeEnd(items, p))
    ensures Lines(n, Junk(items, q)) == Lines(n, Junk(items, p))
  {
    if n > 0 {
      SameParts(items, q, p, n - 1);
    }
  }

  lemma StepIsParts(items: seq<Item>, p: Path, n: nat)
    requires n < |p.depths| == |p.openers| <= |items| && CanStep(items, n, p.depths[n], p.openers[n])
    ensures PartsCost(items, p, n + 1) == PartsCost(items, p, n) + StepCost(items, n, p.depths[n], p.openers[n])
  {
  }

  /**
   The cost of a way: the chosen priors, 1.5 for each line decided against the indentation, 0.5 for each
   before an End no further out, 12 for each line that is no header outside every block, and 40 for each
   level closed by force.
   */
  lemma {:induction false} CostIsParts(items: seq<Item>, p: Path, d: nat)
    requires IsWay(items, p, d)
    ensures WayCost(items, p, d) == PartsCost(items, p, |p.depths|)
    decreases |p.depths|
  {
    if p.depths != [] {
      var n := |p.depths| - 1;
      CostIsParts(items, Front(p), p.depths[n]);
      PartsOfFront(items, p, n);
      StepIsParts(items, p, n);
    }
  }

  // ----- the tables

  datatype Cost = Inf | Fin(c: real)

  predicate Below(c: real, cost: Cost) {
    cost.Fin? ==> c < cost.c
  }

  /** Per item: depth after it -> (depth before it, does it open). */
  type Links = map<nat, (nat, bool)>

  ghost predicate IsLinked(back: seq<Links>, d: nat) {
    back == [] || (d in back[|back| - 1] && IsLinked(back[..|back| - 1], back[|back| - 1][d].0))
  }

  ghost function Traced(back: seq<Links>, d: nat): Path
    requires IsLinked(back, d)
  {
    if back == [] then Path([], [])
    else
      var k := |back| - 1;
      var (pd, opens) := back[k][d];
      var front := Traced(back[..k], pd);
      Path(front.depths + [pd], front.openers + [opens])
  }

  /** The entry for depth d: a cheapest way there, laid down in the links, or the fact that there is none. */
  ghost predicate IsBest(items: seq<Item>, cost: seq<Cost>, back: seq<Links>, d: nat)
    requires d < |cost|
  {
    && (cost[d].Fin? ==> IsLinked(back, d) && IsWay(items, Traced(back, d), d)
                         && |Traced(back, d).depths| == |back| && WayCost(items, Traced(back, d), d) == cost[d].c)
    && (forall p: Path :: |p.depths| == |back| && IsWay(items, p, d) ==>
          cost[d].Fin? && cost[d].c <= WayCost(items, p, d))
  }

  ghost predicate AllBest(items: seq<Item>, cost: seq<Cost>, back: seq<Links>) {
    && |cost| == DMAX + 2 && |back| <= |items|
    && forall d :: 0 <= d <= DMAX ==> IsBest(items, cost, back, d)
  }

  /** A new entry is the cost of a step from an old one, as its link says. */
  ghost predicate IsBacked(items: seq<Item>, k: nat, cost: seq<Cost>, next: seq<Cost>, links: Links, d: nat)
    requires k < |items| && |cost| == |next| == DMAX + 2 && d < |next|
  {
    next[d].Fin? ==>
      && d in links && links[d].0 <= DMAX && cost[links[d].0].Fin?
      && CanStep(items, k, links[d].0, links[d].1) && StepTo(items, k, links[d].0, links[d].1) == d
      && next[d].c == cost[links[d].0].c + StepCost(items, k, links[d].0, links[d].1)
  }

  /** A step from an old entry has been offered to the new table. */
  ghost predicate IsOffered(items: seq<Item>, k: nat, cost: seq<Cost>, next: seq<Cost>, d: nat, opens: bool)
    requires k < |items| && |cost| == |next| == DMAX + 2 && d <= DMAX
  {
    cost[d].Fin? && CanStep(items, k, d, opens) ==>
      var to := StepTo(items, k, d, opens);
      to < |next| && next[to].Fin? && next[to].c <= cost[d].c + StepCost(items, k, d, opens)
  }

  ghost predicate Relaxed(items: seq<Item>, k: nat, cost: seq<Cost>, next: seq<Cost>, links: Links, upTo: nat)
    requires k < |items|
  {
    && |cost| == |next| == DMAX + 2 && upTo <= DMAX + 1
    && (forall d :: 0 <= d <= DMAX ==> IsBacked(items, k, cost, next, links, d))
    && (forall d, opens :: 0 <= d < upTo ==> IsOffered(items, k, cost, next, d, opens))
  }

  /** One finished table row gives the next. */
  lemma AdvanceBest(items: seq<Item>, cost: seq<Cost>, back: seq<Links>, next: seq<Cost>, links: Links)
    requires AllBest(items, cost, back) && |back| < |items|
    requires Relaxed(items, |back|, cost, next, links, DMAX + 1)
    ensures AllBest(items, next, back + [links])
  {
    forall d | 0 <= d <= DMAX ensures IsBest(items, next, back + [links], d) {
      AdvanceReached(items, cost, back, next, links, d);
      forall p: Path | |p.depths| == |back| + 1 && IsWay(items, p, d)
        ensures next[d].Fin? && next[d].c <= WayCost(items, p, d)
      {
        AdvanceBounds(items, cost, back, next, links, p, d);
      }
    }
  }

  lemma AdvanceReached(items: seq<Item>, cost: seq<Cost>, back: seq<Links>, next: seq<Cost>, links: Links, d: nat)
    requires AllBest(items, cost, back) && |back| < |items| && d <= DMAX
    requires Relaxed(items, |back|, cost, next, links, DMAX + 1)
    ensures next[d].Fin? ==>
              var longer := back + [links];
              && IsLinked(longer, d) && IsWay(items, Traced(longer, d), d)
              && |Traced(longer, d).depths| == |longer| && WayCost(items, Traced(longer, d), d) == next[d].c
  {
    if next[d].Fin? {
      assert IsBacked(items, |back|, cost, next, links, d);
      var (pd, opens) := links[d];
      assert IsBest(items, cost, back, pd);
      TracedOn(back, links, d);
      var front := Traced(back, pd);
      var p := Path(front.depths + [pd], front.openers + [opens]);
      assert Front(p) == front;
    }
  }

  /** A link more is a step more. */
  lemma TracedOn(back: seq<Links>, links: Links, d: nat)
    requires d in links && IsLinked(back, links[d].0)
    ensures IsLinked(back + [links], d)
    ensures var front := Traced(back, links[d].0);
            Traced(back + [links], d) == Path(front.depths + [links[d].0], front.openers + [links[d].1])
  {
    assert (back + [links])[..|back|] == back;
  }

  lemma AdvanceBounds(items: seq<Item>, cost: seq<Cost>, back: seq<Links>, next: seq<Cost>, links: Links, p: Path,
                      d: nat)
    requires AllBest(items, cost, back) && |back| < |items| && d <= DMAX
    requires Relaxed(items, |back|, cost, next, links, DMAX + 1)
    requires |p.depths| == |back| + 1 && IsWay(items, p, d)
    ensures next[d].Fin? && next[d].c <= WayCost(items, p, d)
  {
    var k := |back|;
    var pd, opens := p.depths[k], p.openers[k];
    WayWithinDepth(items, Front(p), pd);
    assert IsBest(items, cost, back, pd);
    assert IsOffered(items, k, cost, next, pd, opens);
  }

  // ----- the method

  /** `if c < new[d]: new[d] = c; bk[d] = (from, opens)` */
  method Offer(next: seq<Cost>, links: Links, d: nat, c: real, from: nat, opens: bool)
    returns (next': seq<Cost>, links': Links)
    requires d < |next|
    ensures if Below(c, next[d]) then next' == next[d := Fin(c)] && links' == links[d := (from, opens)]
            else next' == next && links' == links
  {
    next', links' := next, links;
    if Below(c, next[d]) {
      next', links' := next[d := Fin(c)], links[d := (from, opens)];
    }
  }

  lemma OfferKeeps(items: seq<Item>, k: nat, cost: seq<Cost>, next: seq<Cost>, links: Links, upTo: nat,
                   from: nat, opens: bool, next': seq<Cost>, links': Links)
    requires k < |items| && Relaxed(items, k, cost, next, links, upTo)
    requires from <= DMAX && cost[from].Fin? && CanStep(items, k, from, opens) && StepTo(items, k, from, opens) <= DMAX
    requires var d := StepTo(items, k, from, opens); var c := cost[from].c + StepCost(items, k, from, opens);
             if Below(c, next[d]) then next' == next[d := Fin(c)] && links' == links[d := (from, opens)]
             else next' == next && links' == links
    ensures Relaxed(items, k, cost, next', links', upTo)
    ensures IsOffered(items, k, cost, next', from, opens)
    ensures forall d, o :: 0 <= d <= DMAX && IsOffered(items, k, cost, next, d, o) ==>
              IsOffered(items, k, cost, next', d, o)
  {
    forall d | 0 <= d <= DMAX ensures IsBacked(items, k, cost, next', links', d) {
      assert IsBacked(items, k, cost, next, links, d);
    }
    forall d, o | 0 <= d <= DMAX && IsOffered(items, k, cost, next, d, o)
      ensures IsOffered(items, k, cost, next', d, o)
    {
    }
  }

  /** The inner loop's body: offer every step that leads on from depth d. */
  method RelaxFrom(items: seq<Item>, k: nat, cost: seq<Cost>, d: nat, next: seq<Cost>, links: Links)
    returns (next': seq<Cost>, links': Links)
    requires k < |items| && d <= DMAX && Relaxed(items, k, cost, next, links, d)
    ensures Relaxed(items, k, cost, next', links', d + 1)
  {
    next', links' := next, links;
    if cost[d].Inf? {
      return;
    }
    var c, it := cost[d].c, items[k];
    if it.isEnd {
      if d >= 1 {
        next', links' := Offer(next, links, d - 1, c, d, false);
        OfferKeeps(items, k, cost, next, links, d, d, false, next', links');
      }
      return;
    }
    if d == 0 {
      var extra := if it.isHeader then 0.0 else TOPLEVEL_JUNK_COST;
      next', links' := Offer(next, links, 1, c + extra, 0, true);
      OfferKeeps(items, k, cost, next, links, d, d, true, next', links');
      return;
    }
    if it.HeaderCol0() {
      next', links' := Offer(next, links, 1, c + FORCED_CLOSE_COST * d as real, d, true);
      OfferKeeps(items, k, cost, next, links, d, d, true, next', links');
      return;
    }
    if d + 1 <= DMAX {
      next', links' := Offer(next, links, d + 1, c + OpenCost(items, k), d, true);
      OfferKeeps(items, k, cost, next, links, d, d, true, next', links');
    }
    var mid, midLinks := next', links';
    next', links' := Offer(mid, midLinks, d, c + PlainCost(items, k), d, false);
    OfferKeeps(items, k, cost, mid, midLinks, d, d, false, next', links');
  }

  method FillTables(items: seq<Item>) returns (cost: seq<Cost>, back: seq<Links>)
    ensures |back| == |items| && AllBest(items, cost, back)
  {
    cost, back := seq(DMAX + 2, _ => Inf)[0 := Fin(0.0)], [];
    FirstRow(items, cost);
    for k := 0 to |items|
      invariant |back| == k && AllBest(items, cost, back)
    {
      var next: seq<Cost>, links: Links := seq(DMAX + 2, _ => Inf), map[];
      for d := 0 to DMAX + 1
        invariant Relaxed(items, k, cost, next, links, d)
      {
        next, links := RelaxFrom(items, k, cost, d, next, links);
      }
      AdvanceBest(items, cost, back, next, links);
      back, cost := back + [links], next;
    }
  }

  lemma FirstRow(items: seq<Item>, cost: seq<Cost>)
    requires |cost| == DMAX + 2 && cost[0] == Fin(0.0) && forall d :: 0 < d < |cost| ==> cost[d] == Inf
    ensures AllBest(items, cost, [])
  {
    forall d | 0 <= d <= DMAX ensures IsBest(items, cost, [], d) {
    }
  }

  lemma {:induction false} TracedLength(back: seq<Links>, d: nat)
    requires IsLinked(back, d)
    ensures |Traced(back, d).depths| == |Traced(back, d).openers| == |back|
  {
    if back != [] {
      TracedLength(back[..|back| - 1], back[|back| - 1][d].0);
    }
  }

  /** Read the links back from the end: depths and openers are filled from the last line to the first. */
  lemma TracedBack(back: seq<Links>, k: nat, d: nat)
    requires 0 < k <= |back| && IsLinked(back[..k], d)
    ensures d in back[k - 1] && IsLinked(back[..k - 1], back[k - 1][d].0)
    ensures var front := Traced(back[..k - 1], back[k - 1][d].0);
            Traced(back[..k], d) == Path(front.depths + [back[k - 1][d].0], front.openers + [back[k - 1][d].1])
  {
    assert back[..k][..k - 1] == back[..k - 1];
  }

  lemma TailsNext(front: Path, pd: nat, opens: bool, depths: seq<nat>, openers: seq<bool>, k: nat)
    requires k < |depths| == |openers|
    ensures (front.depths + [pd]) + depths[k + 1..] == front.depths + depths[k := pd][k..]
    ensures (front.openers + [opens]) + openers[k + 1..] == front.openers + openers[k := opens][k..]
  {
  }

  method ReadBack(back: seq<Links>) returns (p: Path)
    requires IsLinked(back, 0)
    ensures p == Traced(back, 0)
  {
    var n := |back|;
    var depths, openers := seq(n, _ => 0), seq(n, _ => false);
    var d, k := 0, n;
    assert back[..n] == back;
    TracedLength(back, 0);
    while k > 0
      invariant 0 <= k <= n == |depths| == |openers|
      invariant IsLinked(back[..k], d)
      invariant var front := Traced(back[..k], d);
                Traced(back, 0) == Path(front.depths + depths[k..], front.openers + openers[k..])
    {
      TracedBack(back, k, d);
      var (pd, opens) := back[k - 1][d];
      k := k - 1;
      TailsNext(Traced(back[..k], pd), pd, opens, depths, openers, k);
      depths, openers := depths[k := pd], openers[k := opens];
      d := pd;
    }
    p := Path(depths, openers);
  }

  /** A cheapest parse, or none exactly when the lines cannot be balanced. */
  method ParseStructure(items: seq<Item>) returns (p: Option<Path>)
    ensures p.Some? ==> IsCheapestParse(items, p.value)
    ensures p.None? <==> forall q :: !IsParse(items, q)
  {
    var cost, back := FillTables(items);
    assert IsBest(items, cost, back, 0);
    if cost[0].Inf? {
      return None;
    }
    var path := ReadBack(back);
    p := Some(path);
    assert IsParse(items, path);
  }

  ghost predicate IsWhole(items: seq<Item>, p: Path) {
    |p.depths| == |items| && IsLineByLine(items, p, 0)
  }

  /** So the parse that is found is line by line legal, and the sum of its parts is least. */
  lemma CheapestIff(items: seq<Item>, p: Path)
    ensures IsCheapestParse(items, p) <==>
              IsWhole(items, p)
              && forall q: Path :: IsWhole(items, q) ==> PartsCost(items, p, |items|) <= PartsCost(items, q, |items|)
  {
    forall q: Path
      ensures IsParse(items, q) <==> IsWhole(items, q)
      ensures IsParse(items, q) ==> WayCost(items, q, 0) == PartsCost(items, q, |items|)
    {
      WayIff(items, q, 0);
      if IsParse(items, q) {
        CostIsParts(items, q, 0);
      }
    }
  }

  // ----- the extents of the object definitions

  /** How the scan of a body ended. */
  datatype Ending = Closed | ForcedClosed | RanOff

  /** The definition on lines first to last: last is its own End, or the line before the next header. */
  datatype Extent = Extent(first: nat, last: nat, ending: Ending)

  /** A definition starts at a column-0 header, or at a header outside every block. */
  predicate Starts(items: seq<Item>, p: Path, k: nat)
    requires k < |items| && |p.depths| == |p.openers| == |items|
  {
    (items[k].HeaderCol0() || (p.depths[k] == 0 && p.openers[k])) && items[k].kind.Some? && !items[k].hasEquals
  }

  /** Its header names it, and its original if it has one. */
  predicate WellNamed(it: Item) {
    it.kind.Some? ==> it.words >= if it.kind.value == Object then 2 else 3
  }

  /** The depth after line k of a path. */
  function DepthAfter(p: Path, k: nat): nat
    requires k < |p.depths|
  {
    if k + 1 < |p.depths| then p.depths[k + 1] else 0
  }

  /** Every line of a parse is a legal step to the depth after it. */
  lemma {:induction false} ParseSteps(items: seq<Item>, p: Path, d: nat, k: nat)
    requires IsWay(items, p, d) && k < |p.depths|
    ensures CanStep(items, k, p.depths[k], p.openers[k])
    ensures StepTo(items, k, p.depths[k], p.openers[k]) == if k + 1 < |p.depths| then p.depths[k + 1] else d
    decreases |p.depths|
  {
    var n := |p.depths| - 1;
    if k < n {
      ParseSteps(items, Front(p), p.depths[n], k);
    }
  }

  /** The lines strictly inside an extent are at depth 1 or more, hold no column-0 header and no End of depth 1. */
  ghost predicate IsBody(items: seq<Item>, p: Path, first: nat, end: nat)
    requires end <= |items| && |p.depths| == |items|
  {
    forall j :: first < j < end ==>
      p.depths[j] >= 1 && !items[j].HeaderCol0() && !(items[j].isEnd && p.depths[j] == 1)
  }

  ghost predicate IsExtent(items: seq<Item>, p: Path, e: Extent)
    requires |p.depths| == |p.openers| == |items|
  {
    && e.first <= e.last < |items| && Starts(items, p, e.first)
    && match e.ending
       case Closed =>
         e.first < e.last && IsBody(items, p, e.first, e.last) && items[e.last].isEnd && p.depths[e.last] == 1
       case ForcedClosed => IsBody(items, p, e.first, e.last + 1) && e.last + 1 < |items|
                            && items[e.last + 1].HeaderCol0() && p.depths[e.last + 1] >= 1
       case RanOff => false
  }

  /** The body scan. On a parse it never runs off the end. */
  method ScanBody(items: seq<Item>, p: Path, first: nat) returns (e: Extent)
    requires IsParse(items, p) && first < |items| && Starts(items, p, first)
    requires forall k :: 0 <= k < |items| ==> items[k].Valid()
    ensures e.first == first && IsExtent(items, p, e)
  {
    var j := first + 1;
    ParseSteps(items, p, 0, first);
    while j < |items|
      invariant first < j <= |items|
      invariant IsBody(items, p, first, j)
      invariant DepthAfter(p, j - 1) >= 1
    {
      ParseSteps(items, p, 0, j);
      if items[j].HeaderCol0() && p.depths[j] > 0 {
        return Extent(first, j - 1, ForcedClosed);
      }
      if items[j].isEnd && p.depths[j] == 1 {
        return Extent(first, j, Closed);
      }
      j := j + 1;
    }
    assert false;
    e := Extent(first, first, RanOff);
  }

  /** Extents in order, apart from one another, and holding every start below n. */
  ghost predicate AreExtents(items: seq<Item>, p: Path, es: seq<Extent>, n: nat)
    requires |p.depths| == |p.openers| == |items| && n <= |items|
  {
    && (forall i :: 0 <= i < |es| ==> IsExtent(items, p, es[i]) && es[i].last < n)
    && (forall i, j :: 0 <= i < j < |es| ==> es[i].last < es[j].first)
    && (forall k :: 0 <= k < n && Starts(items, p, k) ==> IsFirst(es, k))
  }

  ghost predicate IsFirst(es: seq<Extent>, k: nat) {
    exists i :: 0 <= i < |es| && es[i].first == k
  }

  lemma ExtentsNext(items: seq<Item>, p: Path, es: seq<Extent>, k: nat, e: Extent)
    requires |p.depths| == |p.openers| == |items| && k < |items| && AreExtents(items, p, es, k)
    requires IsExtent(items, p, e) && e.first == k
    requires forall j :: e.first < j <= e.last ==> !Starts(items, p, j)
    ensures AreExtents(items, p, es + [e], e.last + 1)
  {
    forall j | 0 <= j < e.last + 1 && Starts(items, p, j) ensures IsFirst(es + [e], j) {
      if j < k {
        assert IsFirst(es, j);
        var i :| 0 <= i < |es| && es[i].first == j;
        assert (es + [e])[i].first == j;
      } else {
        assert (es + [e])[|es|].first == j;
      }
    }
  }

  /**
   The definitions of a file: every start of the parse opens an extent of its own, none is
   swallowed by the body of another, and each closes at its own End or is cut short by a header.
   */
  method CollectObjects(items: seq<Item>, p: Path) returns (es: Option<seq<Extent>>)
    requires IsParse(items, p)
    requires forall k :: 0 <= k < |items| ==> items[k].Valid()
    ensures es.Some? ==> AreExtents(items, p, es.value, |items|)
    ensures es.None? <==> exists k :: 0 <= k < |items| && Starts(items, p, k)
                            && (items[k].words < 2 || (items[k].kind != Some(Object) && items[k].words < 3))
  {
    var found: seq<Extent>, k := [], 0;
    while k < |items|
      invariant k <= |items| && AreExtents(items, p, found, k)
      invariant forall i :: 0 <= i < k && Starts(items, p, i) ==> WellNamed(items[i])
    {
      if Starts(items, p, k) {
        if !WellNamed(items[k]) {
          return None;
        }
        var e := ScanBody(items, p, k);
        NoStartInside(items, p, e);
        ExtentsNext(items, p, found, k, e);
        found := found + [e];
        k := e.last + 1;
      } else {
        k := k + 1;
      }
    }
    es := Some(found);
  }

  lemma NoStartInside(items: seq<Item>, p: Path, e: Extent)
    requires IsParse(items, p) && IsExtent(items, p, e)
    requires forall k :: 0 <= k < |items| ==> items[k].Valid()
    ensures forall k :: e.first < k <= e.last ==> !Starts(items, p, k)
  {
  }
}
