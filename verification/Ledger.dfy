/**
 The byte-painted ledger of tools/re/match_rotwk.py: rows of provenance lanes are painted over the
 bytes of a section in sorted order, so that on every byte the highest lane wins.
 */
module Ledger {
  import opened Options
  import opened PyInt
  import opened Sorting

  /** A ledger row with its lane as a rank, 1 (dump) to 7 (authored). */
  datatype Row = Row(rank: nat, rva: int, size: int, source: string, name: string)

  const RANKS := 7

  // ----- the order of rows: tuples compared field by field

  predicate TextLeq(a: string, b: string) {
    if a == [] then true
    else if b == [] then false
    else if a[0] != b[0] then a[0] < b[0]
    else TextLeq(a[1..], b[1..])
  }

  lemma {:induction false} TextTotal(a: string, b: string)
    ensures TextLeq(a, b) || TextLeq(b, a)
    ensures TextLeq(a, b) && TextLeq(b, a) ==> a == b
  {
    if a != [] && b != [] && a[0] == b[0] {
      TextTotal(a[1..], b[1..]);
      assert a == [a[0]] + a[1..] && b == [b[0]] + b[1..];
    }
  }

  lemma {:induction false} TextTransitive(a: string, b: string, c: string)
    requires TextLeq(a, b) && TextLeq(b, c)
    ensures TextLeq(a, c)
  {
    if a != [] && a[0] == b[0] == c[0] {
      TextTransitive(a[1..], b[1..], c[1..]);
    }
  }

  predicate NamesLeq(p: Row, q: Row) {
    if p.source != q.source then TextLeq(p.source, q.source) else TextLeq(p.name, q.name)
  }

  predicate RowLeq(p: Row, q: Row) {
    if p.rank != q.rank then p.rank < q.rank
    else if p.rva != q.rva then p.rva < q.rva
    else if p.size != q.size then p.size < q.size
    else NamesLeq(p, q)
  }

  lemma NamesOrder(p: Row, q: Row, r: Row)
    ensures NamesLeq(p, q) || NamesLeq(q, p)
    ensures NamesLeq(p, q) && NamesLeq(q, r) ==> NamesLeq(p, r)
  {
    TextTotal(p.source, q.source);
    TextTotal(p.name, q.name);
    TextTotal(q.source, r.source);
    if NamesLeq(p, q) && NamesLeq(q, r) {
      if p.source == q.source == r.source {
        TextTransitive(p.name, q.name, r.name);
      } else if p.source != q.source && q.source != r.source {
        TextTransitive(p.source, q.source, r.source);
      }
    }
  }

  lemma RowLeqIsOrder()
    ensures IsOrder(RowLeq)
  {
    forall p, q ensures RowLeq(p, q) || RowLeq(q, p) {
      NamesOrder(p, q, q);
    }
    forall p, q, r | RowLeq(p, q) && RowLeq(q, r) ensures RowLeq(p, r) {
      NamesOrder(p, q, r);
    }
  }

  // ----- what painting in order means

  predicate Covers(row: Row, at: int) {
    row.rva <= at < row.rva + row.size
  }

  /** The last row that covers an address: the row whose paint shows. */
  function Shown(rows: seq<Row>, at: int): (row: Option<Row>)
    ensures row.Some? ==> row.value in rows && Covers(row.value, at)
  {
    if rows == [] then None
    else if Covers(rows[|rows| - 1], at) then Some(rows[|rows| - 1])
    else Shown(rows[..|rows| - 1], at)
  }

  /** A row counts as starting at its address if any of it lies in the section. */
  predicate Visible(row: Row, t0: int, t1: int) {
    Max(row.rva, t0) < Min(row.rva + row.size, t1)
  }

  /** The last visible row that starts at an address. */
  function Starting(rows: seq<Row>, t0: int, t1: int, at: int): (row: Option<Row>)
    ensures row.Some? ==> row.value in rows && row.value.rva == at && Visible(row.value, t0, t1)
  {
    if rows == [] then None
    else if rows[|rows| - 1].rva == at && Visible(rows[|rows| - 1], t0, t1) then Some(rows[|rows| - 1])
    else Starting(rows[..|rows| - 1], t0, t1, at)
  }

  lemma {:induction false} ShownIsGreatest(rows: seq<Row>, at: int)
    requires SortedBy(rows, RowLeq)
    ensures forall row :: row in rows && Covers(row, at) ==> Shown(rows, at).Some? && RowLeq(row, Shown(rows, at).value)
  {
    if rows != [] {
      var n := |rows| - 1;
      ShownIsGreatest(rows[..n], at);
      NamesOrder(rows[n], rows[n], rows[n]);
      assert forall row :: row in rows ==> row == rows[n] || row in rows[..n];
    }
  }

  lemma {:induction false} StartingIsGreatest(rows: seq<Row>, t0: int, t1: int, at: int)
    requires SortedBy(rows, RowLeq)
    ensures forall row :: row in rows && row.rva == at && Visible(row, t0, t1) ==>
              Starting(rows, t0, t1, at).Some? && RowLeq(row, Starting(rows, t0, t1, at).value)
  {
    if rows != [] {
      var n := |rows| - 1;
      StartingIsGreatest(rows[..n], t0, t1, at);
      NamesOrder(rows[n], rows[n], rows[n]);
      assert forall row :: row in rows ==> row == rows[n] || row in rows[..n];
    }
  }

  /**
   Whatever order the ledger file has, the row that shows on a byte has the highest rank of all the
   rows that cover it, and no row shows exactly when none covers the byte.
   */
  lemma HighestLaneShows(file: seq<Row>, at: int)
    ensures var shown := Shown(Sort(file, RowLeq), at);
            && (shown.Some? ==> shown.value in file && Covers(shown.value, at))
            && (forall row :: row in file && Covers(row, at) ==> shown.Some? && row.rank <= shown.value.rank)
  {
    RowLeqIsOrder();
    SortSorts(file, RowLeq);
    SortKeepsElements(file, RowLeq);
    ShownIsGreatest(Sort(file, RowLeq), at);
  }

  /** Strings compare by their first difference, and a beginning comes before the whole. */
  predicate IsBefore(a: string, b: string) {
    exists k: nat :: k <= |a| && k < |b| && a[..k] == b[..k] && (k == |a| || a[k] < b[k])
  }

  lemma CutBoth(a: string, k: nat)
    requires 0 < k <= |a|
    ensures a[1..][..k - 1] == a[..k][1..]
  {
    assert a[1..][..k - 1] == a[1..k];
    assert a[..k][1..] == a[1..k];
  }

  lemma {:induction false} TextLeqIff(a: string, b: string)
    ensures TextLeq(a, b) <==> a == b || IsBefore(a, b)
  {
    if a != [] && b != [] && a[0] == b[0] {
      TextLeqIff(a[1..], b[1..]);
      assert a == [a[0]] + a[1..] && b == [b[0]] + b[1..];
      if IsBefore(a[1..], b[1..]) {
        var k: nat :| k <= |a| - 1 && k < |b| - 1 && a[1..][..k] == b[1..][..k]
                      && (k == |a| - 1 || a[1..][k] < b[1..][k]);
        assert a[..k + 1] == [a[0]] + a[1..][..k] && b[..k + 1] == [b[0]] + b[1..][..k];
      }
      if k: nat :| k <= |a| && k < |b| && a[..k] == b[..k] && (k == |a| || a[k] < b[k]) {
        assert k > 0;
        CutBoth(a, k);
        CutBoth(b, k);
      }
    } else if b != [] && (a == [] || a[0] < b[0]) {
      assert a[..0] == b[..0];
    }
  }

  /** The keys of two rows, one after the other: lane rank, address, size, source and name. */
  predicate NoLater(p: Row, q: Row) {
    || p.rank < q.rank
    || (p.rank == q.rank && (p.rva < q.rva || (p.rva == q.rva && (p.size < q.size || (p.size == q.size &&
         (IsBefore(p.source, q.source) || (p.source == q.source && (p.name == q.name || IsBefore(p.name, q.name)))))))))
  }

  /** Of the rows that cover a byte the one that shows is the last by these keys. */
  lemma LastRowShows(file: seq<Row>, at: int, row: Row)
    requires row in file && Covers(row, at)
    ensures var shown := Shown(Sort(file, RowLeq), at); shown.Some? && NoLater(row, shown.value)
  {
    RowLeqIsOrder();
    SortSorts(file, RowLeq);
    SortKeepsElements(file, RowLeq);
    ShownIsGreatest(Sort(file, RowLeq), at);
    var q := Shown(Sort(file, RowLeq), at).value;
    TextLeqIff(row.source, q.source);
    TextLeqIff(row.name, q.name);
  }

  /** Likewise the row remembered for a start address has the highest rank of the visible rows there. */
  lemma HighestLaneStarts(file: seq<Row>, t0: int, t1: int, at: int)
    ensures var head := Starting(Sort(file, RowLeq), t0, t1, at);
            && (head.Some? ==> head.value in file && head.value.rva == at && Visible(head.value, t0, t1))
            && (forall row :: row in file && row.rva == at && Visible(row, t0, t1) ==>
                  head.Some? && row.rank <= head.value.rank)
  {
    RowLeqIsOrder();
    SortSorts(file, RowLeq);
    SortKeepsElements(file, RowLeq);
    StartingIsGreatest(Sort(file, RowLeq), t0, t1, at);
  }

  // ----- reading an extent

  function Count(s: seq<int>, x: int): nat {
    if s == [] then 0 else Count(s[..|s| - 1], x) + (if s[|s| - 1] == x then 1 else 0)
  }

  /** The bytes whose lane is C++: generated, vendored or authored. */
  function CppCount(lanes: seq<int>): nat {
    Count(lanes, 5) + Count(lanes, 6) + Count(lanes, 7)
  }

  function Covered(lanes: seq<int>): int {
    |lanes| - Count(lanes, 0)
  }

  /** The lowest of the ranks 1 to n with the most bytes. */
  function Dominant(lanes: seq<int>, n: nat): (rank: nat)
    requires n >= 1
    ensures 1 <= rank <= n
    ensures forall k :: 1 <= k <= n ==> Count(lanes, k) <= Count(lanes, rank)
  {
    if n == 1 then 1
    else
      var best := Dominant(lanes, n - 1);
      if Count(lanes, n) > Count(lanes, best) then n else best
  }

  /** The C++ lane with the most bytes, authored before vendored before generated. */
  function DominantCpp(lanes: seq<int>): (rank: nat)
    ensures 5 <= rank <= 7
    ensures forall k :: 5 <= k <= 7 ==> Count(lanes, k) <= Count(lanes, rank)
  {
    if Count(lanes, 7) >= Count(lanes, 6) && Count(lanes, 7) >= Count(lanes, 5) then 7
    else if Count(lanes, 6) >= Count(lanes, 5) then 6
    else 5
  }

  datatype Status = Nothing | Whole(rank: nat) | Partial(rank: nat)

  function Fraction(part: int, total: nat): real
    requires total > 0
  {
    part as real / total as real
  }

  /** The status of an extent: the row at its start names it, else the share of the lanes does. */
  function Judge(lanes: seq<int>, head: Option<nat>): Status
    requires lanes != []
  {
    if head.Some? then Whole(head.value)
    else if Fraction(CppCount(lanes), |lanes|) >= 0.95 then Whole(DominantCpp(lanes))
    else if Fraction(Covered(lanes), |lanes|) >= 0.95 then Whole(Dominant(lanes, RANKS))
    else if Covered(lanes) > 0 then Partial(Dominant(lanes, RANKS))
    else Nothing
  }

  ghost predicate AreRanks(lanes: seq<int>) {
    forall k :: 0 <= k < |lanes| ==> 0 <= lanes[k] <= RANKS
  }

  function Sum(lanes: seq<int>): int {
    Count(lanes, 1) + Count(lanes, 2) + Count(lanes, 3) + Count(lanes, 4) + CppCount(lanes)
  }

  lemma {:induction false} CountsPartition(lanes: seq<int>)
    requires AreRanks(lanes)
    ensures Covered(lanes) == Sum(lanes)
  {
    if lanes != [] {
      CountsPartition(lanes[..|lanes| - 1]);
      var last := lanes[|lanes| - 1];
      assert last == 0 || last == 1 || last == 2 || last == 3 || last == 4 || last == 5 || last == 6 || last == 7;
    }
  }

  lemma {:induction false} CountPositive(s: seq<int>, x: int)
    ensures Count(s, x) > 0 <==> x in s
  {
    if s != [] {
      CountPositive(s[..|s| - 1], x);
      assert s == s[..|s| - 1] + [s[|s| - 1]];
    }
  }

  lemma ShareAtLeast(part: int, total: nat)
    requires total > 0
    ensures Fraction(part, total) >= 0.95 <==> 20 * part >= 19 * total
  {
    var p, t := part as real, total as real;
    assert p / t >= 0.95 <==> p >= 0.95 * t;
  }

  lemma {:induction false} CountsDisjoint(lanes: seq<int>, x: int, y: int)
    requires x != y
    ensures Count(lanes, x) + Count(lanes, y) <= |lanes|
    ensures x < 5 ==> Count(lanes, x) + CppCount(lanes) <= |lanes|
  {
    if lanes != [] {
      CountsDisjoint(lanes[..|lanes| - 1], x, y);
    }
  }

  /** No other lane comes near a lane that covers 95% of the extent. */
  lemma MajorityLeads(lanes: seq<int>, rank: nat)
    requires lanes != [] && 1 <= rank <= RANKS && 20 * Count(lanes, rank) >= 19 * |lanes|
    ensures Dominant(lanes, RANKS) == rank
    ensures rank >= 5 ==> DominantCpp(lanes) == rank
  {
    if Dominant(lanes, RANKS) != rank {
      CountsDisjoint(lanes, rank, Dominant(lanes, RANKS));
    }
    if rank >= 5 && DominantCpp(lanes) != rank {
      CountsDisjoint(lanes, rank, DominantCpp(lanes));
    }
  }

  /** A lane that covers 95% of the extent is the lane reported for it. */
  lemma MajorityLaneIsReported(lanes: seq<int>, rank: nat)
    requires lanes != [] && AreRanks(lanes) && 1 <= rank <= RANKS
    requires Fraction(Count(lanes, rank), |lanes|) >= 0.95
    ensures Judge(lanes, None) == Whole(rank)
  {
    var n := |lanes|;
    ShareAtLeast(Count(lanes, rank), n);
    ShareAtLeast(CppCount(lanes), n);
    ShareAtLeast(Covered(lanes), n);
    MajorityLeads(lanes, rank);
    CountsDisjoint(lanes, rank, 0);
    if rank >= 5 {
      assert rank == 5 || rank == 6 || rank == 7;
      assert CppCount(lanes) >= Count(lanes, rank);
    }
  }

  /** What the status says about an extent that no row starts. */
  lemma StatusMeaning(lanes: seq<int>)
    requires lanes != [] && AreRanks(lanes)
    ensures Judge(lanes, None) == Nothing <==> forall k :: 0 <= k < |lanes| ==> lanes[k] == 0
    ensures Judge(lanes, None) != Nothing ==> Judge(lanes, None).rank in lanes
    ensures Judge(lanes, None).Whole? <==> Fraction(Covered(lanes), |lanes|) >= 0.95
  {
    CountsPartition(lanes);
    ShareAtLeast(CppCount(lanes), |lanes|);
    ShareAtLeast(Covered(lanes), |lanes|);
    CountPositive(lanes, Dominant(lanes, RANKS));
    CountPositive(lanes, DominantCpp(lanes));
    NothingCovered(lanes);
  }

  /**
   The lane that is reported without a row at the start: if the three C++ lanes cover 95%, the one of them
   on the most bytes, the highest of equals; else the lane on the most bytes, the lowest of equals.
   */
  lemma ReportedLane(lanes: seq<int>)
    requires lanes != [] && Judge(lanes, None) != Nothing
    ensures var k := Judge(lanes, None).rank;
            if Fraction(Count(lanes, 5) + Count(lanes, 6) + Count(lanes, 7), |lanes|) >= 0.95 then
              && 5 <= k <= 7
              && forall j :: 5 <= j <= 7 ==>
                   Count(lanes, j) <= Count(lanes, k) && (j > k ==> Count(lanes, j) < Count(lanes, k))
            else
              && 1 <= k <= 7
              && forall j :: 1 <= j <= 7 ==>
                   Count(lanes, j) <= Count(lanes, k) && (j < k ==> Count(lanes, j) < Count(lanes, k))
  {
    DominantLeads(lanes, RANKS);
  }

  lemma {:induction false} DominantLeads(lanes: seq<int>, n: nat)
    requires n >= 1
    ensures var k := Dominant(lanes, n);
            && 1 <= k <= n
            && forall j :: 1 <= j <= n ==>
                 Count(lanes, j) <= Count(lanes, k) && (j < k ==> Count(lanes, j) < Count(lanes, k))
  {
    if n > 1 {
      DominantLeads(lanes, n - 1);
    }
  }

  lemma {:induction false} NothingCovered(lanes: seq<int>)
    requires AreRanks(lanes)
    ensures Covered(lanes) >= 0
    ensures Covered(lanes) == 0 <==> forall k :: 0 <= k < |lanes| ==> lanes[k] == 0
  {
    if lanes != [] {
      NothingCovered(lanes[..|lanes| - 1]);
    }
  }

  predicate CoversMost(lanes: seq<int>, rank: nat)
    requires lanes != []
  {
    Fraction(Count(lanes, rank), |lanes|) >= 0.95
  }

  /**
   The lane reported for a whole extent covers 95% of it itself exactly when the extent is not reported
   whole, or some lane does cover 95% of it.
   */
  lemma ReportedLaneCoversIff(lanes: seq<int>)
    requires lanes != [] && AreRanks(lanes)
    ensures (Judge(lanes, None).Whole? ==> CoversMost(lanes, Judge(lanes, None).rank))
       <==> (Fraction(Covered(lanes), |lanes|) < 0.95 || exists k :: 1 <= k <= RANKS && CoversMost(lanes, k))
  {
    StatusMeaning(lanes);
    if k :| 1 <= k <= RANKS && CoversMost(lanes, k) {
      MajorityLaneIsReported(lanes, k);
    }
    if Judge(lanes, None).Whole? && CoversMost(lanes, Judge(lanes, None).rank) {
      ReportedIsARank(lanes);
      assert CoversMost(lanes, Judge(lanes, None).rank);
    }
  }

  lemma ReportedIsARank(lanes: seq<int>)
    requires lanes != [] && Judge(lanes, None) != Nothing
    ensures 1 <= Judge(lanes, None).rank <= RANKS
  {
  }

  /** Two bytes of different lanes are reported as one whole lane. */
  lemma HalvesAreOneLane()
    ensures Judge([1, 2], None) == Whole(1) && !CoversMost([1, 2], 1)
  {
    assert [1, 2][..1] == [1];
    forall k ensures Count([1, 2], k) == if k == 1 || k == 2 then 1 else 0 {
      assert Count([1], k) == if k == 1 then 1 else 0;
    }
    assert Dominant([1, 2], 1) == 1 && Dominant([1, 2], 2) == 1 && Dominant([1, 2], 3) == 1 && Dominant([1, 2], 4) == 1;
    assert Dominant([1, 2], 5) == 1 && Dominant([1, 2], 6) == 1;
  }

  // ----- the painted section

  /** A byte with this lane and source number shows the row. */
  predicate Displays(shown: Option<Row>, rank: int, sid: int, sources: seq<(string, string)>) {
    match shown
    case None => rank == 0 && sid == -1
    case Some(row) => rank == row.rank && 0 <= sid < |sources| && sources[sid] == (row.source, row.name)
  }

  /** The start table holds the row at the address. */
  predicate Remembers(head: Option<Row>, at: int, starts: map<int, (nat, nat)>, sources: seq<(string, string)>) {
    match head
    case None => at !in starts
    case Some(row) => at in starts && starts[at].0 < |sources|
                      && sources[starts[at].0] == (row.source, row.name) && starts[at].1 == row.rank
  }

  /** A byte after one more row is painted. */
  lemma PaintedByte(rows: seq<Row>, row: Row, at: int, rank: int, sid: int, was: seq<(string, string)>,
                    sources: seq<(string, string)>)
    requires was <= sources
    requires if Covers(row, at) then rank == row.rank && 0 <= sid < |sources| && sources[sid] == (row.source, row.name)
             else Displays(Shown(rows, at), rank, sid, was)
    ensures Displays(Shown(rows + [row], at), rank, sid, sources)
  {
    assert (rows + [row])[..|rows|] == rows;
  }

  /** A start address after one more visible row is painted. */
  lemma PaintedStart(rows: seq<Row>, row: Row, t0: int, t1: int, at: int, was: map<int, (nat, nat)>, sid: nat,
                     before: seq<(string, string)>, sources: seq<(string, string)>)
    requires Remembers(Starting(rows, t0, t1, at), at, was, before) && before <= sources
    requires Visible(row, t0, t1) && sid < |sources| && sources[sid] == (row.source, row.name)
    ensures Remembers(Starting(rows + [row], t0, t1, at), at, was[row.rva := (sid, row.rank)], sources)
  {
    assert (rows + [row])[..|rows|] == rows;
  }

  class Ledger {
    const t0: int
    const t1: int
    const lane: array<int>
    const src: array<int>
    var sources: seq<(string, string)>
    var srcIds: map<(string, string), nat>
    var starts: map<int, (nat, nat)>

    /** The section shows the rows painted so far. */
    ghost predicate Painted(rows: seq<Row>)
      reads this, lane, src
    {
      && lane != src && lane.Length == src.Length == t1 - t0
      && IdsNumberSources()
      && (forall k :: 0 <= k < lane.Length ==> ByteShows(rows, k))
      && (forall at :: StartIs(rows, at))
    }

    ghost predicate IdsNumberSources()
      reads this
    {
      && |srcIds| == |sources|
      && forall key :: key in srcIds ==> srcIds[key] < |sources| && sources[srcIds[key]] == key
    }

    ghost predicate ByteShows(rows: seq<Row>, k: nat)
      requires k < lane.Length && k < src.Length
      reads this, lane, src
    {
      Displays(Shown(rows, t0 + k), lane[k], src[k], sources)
    }

    /** The byte has the row's lane and source. */
    ghost predicate ByteIs(row: Row, k: nat)
      requires k < lane.Length && k < src.Length
      reads this, lane, src
    {
      Displays(Some(row), lane[k], src[k], sources)
    }

    ghost predicate StartIs(rows: seq<Row>, at: int)
      reads this
    {
      Remembers(Starting(rows, t0, t1, at), at, starts, sources)
    }

    constructor (file: seq<Row>, t0: int, t1: int)
      requires t0 <= t1
      ensures Painted(Sort(file, RowLeq)) && this.t0 == t0 && this.t1 == t1
    {
      this.t0, this.t1 := t0, t1;
      lane := new int[t1 - t0](_ => 0);
      src := new int[t1 - t0](_ => -1);
      sources, srcIds, starts := [], map[], map[];
      new;
      PaintAll(Sort(file, RowLeq));
    }

    method PaintAll(rows: seq<Row>)
      requires Painted([])
      modifies this, lane, src
      ensures Painted(rows)
    {
      for i := 0 to |rows|
        invariant Painted(rows[..i])
      {
        assert rows[..i + 1] == rows[..i] + [rows[i]];
        Paint(rows[i], rows[..i]);
      }
      assert rows[..|rows|] == rows;
    }

    /** `setdefault`, and a new source at the end of the list. */
    method SourceId(source: string, name: string) returns (sid: nat)
      requires IdsNumberSources()
      modifies `sources, `srcIds
      ensures IdsNumberSources()
      ensures sid < |sources| && sources[sid] == (source, name) && old(sources) <= sources
    {
      var key := (source, name);
      if key !in srcIds {
        srcIds := srcIds[key := |srcIds|];
      }
      sid := srcIds[key];
      if sid == |sources| {
        sources := sources + [key];
      }
    }

    /** A row outside the range changes nothing. */
    lemma InvisibleRow(row: Row, rows: seq<Row>)
      requires Painted(rows) && !Visible(row, t0, t1)
      ensures Painted(rows + [row])
    {
      assert (rows + [row])[..|rows|] == rows;
      forall k | 0 <= k < lane.Length ensures ByteShows(rows + [row], k) {
        assert ByteShows(rows, k) && !Covers(row, t0 + k);
      }
      forall at ensures StartIs(rows + [row], at) {
        assert StartIs(rows, at);
      }
    }

    method Paint(row: Row, ghost rows: seq<Row>)
      requires Painted(rows)
      modifies this, lane, src
      ensures Painted(rows + [row])
    {
      hide Shown, Starting, Displays, Remembers;
      var a, b := Max(row.rva, t0) - t0, Min(row.rva + row.size, t1) - t0;
      if a >= b {
        InvisibleRow(row, rows);
        return;
      }
      ghost var was, heads := sources, starts;
      var sid := SourceId(row.source, row.name);
      for k := a to b
        modifies lane, src
        invariant forall j :: a <= j < k ==> lane[j] == row.rank && src[j] == sid
        invariant forall j :: 0 <= j < lane.Length && !(a <= j < k) ==> lane[j] == old(lane[j]) && src[j] == old(src[j])
      {
        lane[k], src[k] := row.rank, sid;
      }
      starts := starts[row.rva := (sid, row.rank)];
      forall k | 0 <= k < lane.Length ensures ByteShows(rows + [row], k) {
        assert old(ByteShows(rows, k)) && (Covers(row, t0 + k) <==> a <= k < b);
        PaintedByte(rows, row, t0 + k, lane[k], src[k], was, sources);
      }
      forall at ensures StartIs(rows + [row], at) {
        assert old(StartIs(rows, at));
        PaintedStart(rows, row, t0, t1, at, heads, sid, was, sources);
      }
    }

    /** The source with the most bytes of the extent. */
    method MainSource(a: nat, b: nat) returns (sid: int)
      requires a <= b <= src.Length
      ensures sid == -1 <==> forall k :: a <= k < b ==> src[k] < 0
      ensures sid != -1 ==> sid in src[a..b] && sid >= 0
      ensures forall k :: a <= k < b && src[k] >= 0 ==> Count(src[a..b], src[k]) <= Count(src[a..b], sid)
    {
      sid := -1;
      for k := a to b
        invariant sid == -1 <==> forall j :: a <= j < k ==> src[j] < 0
        invariant sid != -1 ==> sid in src[a..b] && sid >= 0
        invariant forall j :: a <= j < k && src[j] >= 0 ==> Count(src[a..b], src[j]) <= Count(src[a..b], sid)
      {
        if src[k] >= 0 && (sid == -1 || Count(src[a..b], src[k]) > Count(src[a..b], sid)) {
          assert src[a..b][k - a] == src[k];
          sid := src[k];
        }
      }
    }

    /** The status, the source that names it, and the C++ share of the extent. */
    method ReadStatus(rva: int, size: int, ghost rows: seq<Row>)
      returns (st: Status, source: Option<(string, string)>, cpp: real)
      requires Painted(rows)
      ensures var a, b := Max(rva, t0) - t0, Min(rva + size, t1) - t0;
              if a >= b then st == Nothing && source == None && cpp == 0.0
              else
                var head := Starting(rows, t0, t1, rva);
                && st == Judge(lane[a..b], if head.Some? then Some(head.value.rank) else None)
                && (head.Some? ==> st == Whole(head.value.rank) && source == Some((head.value.source, head.value.name)))
                && (st != Nothing ==> cpp == Fraction(CppCount(lane[a..b]), b - a))
                && (head.None? && st != Nothing ==> SourceLeads(rows, a, b, source))
                && (st == Nothing ==> source == None && cpp == 0.0)
    {
      var a, b := Max(rva, t0) - t0, Min(rva + size, t1) - t0;
      if a >= b {
        return Nothing, None, 0.0;
      }
      assert StartIs(rows, rva);
      cpp := Fraction(CppCount(lane[a..b]), b - a);
      if rva in starts {
        st := Judge(lane[a..b], Some(starts[rva].1));
        source := Some(sources[starts[rva].0]);
        return;
      }
      st := Judge(lane[a..b], None);
      if st == Nothing {
        return Nothing, None, 0.0;
      }
      source := LeadingSource(a, b, rows);
    }

    /** The source shown on the most bytes of the extent, if any byte shows one. */
    ghost predicate SourceLeads(rows: seq<Row>, a: nat, b: nat, source: Option<(string, string)>)
      requires a <= b <= src.Length
      reads this, src
    {
      match source
      case None => forall k :: a <= k < b ==> src[k] < 0
      case Some(name) => exists sid :: 0 <= sid < |sources| && sid in src[a..b] && sources[sid] == name
                           && forall k :: a <= k < b && src[k] >= 0 ==>
                                Count(src[a..b], src[k]) <= Count(src[a..b], sid)
    }

    method LeadingSource(a: nat, b: nat, ghost rows: seq<Row>) returns (source: Option<(string, string)>)
      requires Painted(rows) && a <= b <= src.Length
      ensures SourceLeads(rows, a, b, source)
    {
      var sid := MainSource(a, b);
      if sid == -1 {
        return None;
      }
      ghost var k :| a <= k < b && src[k] == sid;
      assert ByteShows(rows, k);
      source := Some(sources[sid]);
    }
  }

  /** A dump row that ends at the first byte of the extent, and a library row on the second. */
  function MinorityRows(rva: int): seq<Row> {
    [Row(1, rva - 1, 2, "dump", "before"), Row(2, rva + 1, 1, "library", "after")]
  }

  lemma MinorityBytes(rva: int, t0: int, t1: int)
    ensures var rows := Sort(MinorityRows(rva), RowLeq);
            && Shown(rows, rva) == Some(MinorityRows(rva)[0]) && Shown(rows, rva + 1) == Some(MinorityRows(rva)[1])
            && Starting(rows, t0, t1, rva) == None
  {
    var file := MinorityRows(rva);
    HighestLaneShows(file, rva);
    HighestLaneShows(file, rva + 1);
    HighestLaneStarts(file, t0, t1, rva);
    assert file[0] in file && file[1] in file;
    assert Covers(file[0], rva) && !Covers(file[1], rva) && Covers(file[1], rva + 1) && !Covers(file[0], rva + 1);
  }

  /** So on every byte of a ledger painted from a file the highest lane of all rows that cover it shows. */
  lemma LedgerShowsHighest(ledger: Ledger, file: seq<Row>, k: nat)
    requires ledger.Painted(Sort(file, RowLeq)) && k < ledger.lane.Length
    ensures var at := ledger.t0 + k;
            && (ledger.src[k] == -1 <==> forall row :: row in file ==> !Covers(row, at))
            && (ledger.src[k] == -1 ==> ledger.lane[k] == 0)
            && (forall row :: row in file && Covers(row, at) ==> row.rank <= ledger.lane[k])
            && (ledger.src[k] != -1 ==> exists row :: row in file && Covers(row, at) && ledger.ByteIs(row, k))
  {
    var at := ledger.t0 + k;
    HighestLaneShows(file, at);
    assert ledger.ByteShows(Sort(file, RowLeq), k);
    var shown := Shown(Sort(file, RowLeq), at);
    if shown.Some? {
      assert ledger.ByteIs(shown.value, k);
    }
  }

  /** A ledger of those two rows reports the dump lane for the extent, though it covers one byte of two. */
  lemma ReportedLaneMayBeAMinority(ledger: Ledger, rva: int)
    requires ledger.Painted(Sort(MinorityRows(rva), RowLeq)) && ledger.t0 <= rva && rva + 2 <= ledger.t1
    ensures var a := rva - ledger.t0;
            var lanes := ledger.lane[a..a + 2];
            && Starting(Sort(MinorityRows(rva), RowLeq), ledger.t0, ledger.t1, rva) == None
            && Judge(lanes, None) == Whole(1) && !CoversMost(lanes, 1)
  {
    var a := rva - ledger.t0;
    MinorityBytes(rva, ledger.t0, ledger.t1);
    assert ledger.ByteShows(Sort(MinorityRows(rva), RowLeq), a);
    assert ledger.ByteShows(Sort(MinorityRows(rva), RowLeq), a + 1);
    assert ledger.lane[a..a + 2] == [1, 2];
    HalvesAreOneLane();
  }
}
