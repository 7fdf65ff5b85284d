/**
 `records` of tools/net/netlag2_relaylog.py: the timing tool's own reader of relay logs, which knows
 versions 1 and 2 only, reading what `clean_log` has written.
 */
module LogReader {
  import opened Bytes
  import opened RelayLog

  /** What the generator yields. */
  datatype Item =
    | HeaderItem(version: nat, id: nat, mask: nat, start: nat)
    | CommandItem(sender: nat, ms: nat, command: Bytes)
    | EventItem(slot: nat, event: nat, ms: nat)
    | EndItem(ms: nat, reason: nat)
    | RejoinedItem(slot: nat, generation: nat, ms: nat)

  /** The items yielded, and whether the generator then raises. */
  datatype Read = Read(items: seq<Item>, raised: bool)

  const FRONT: nat := 25

  /** `data[a:b]` of Python, with both ends cut to the length. */
  function Slice(data: Bytes, a: nat, b: nat): Bytes {
    var last := if b < |data| then b else |data|;
    if a < last then data[a..last] else []
  }

  /** One record of the rest: what it yields, and how far it reaches. */
  datatype Turn = NoTurn | Turn(items: seq<Item>, size: nat)

  function ReadTurn(rest: Bytes): (t: Turn)
    requires rest != []
    ensures t.Turn? ==> t.size > 0
  {
    match rest[0]
    case 1 =>
      if |rest| < 10 then NoTurn else
        var length := Field(rest, 6, 4);
        Turn([CommandItem(Field(rest, 1, 1), Field(rest, 2, 4), Slice(rest, 10, 10 + length))], 10 + length)
    case 2 =>
      if |rest| < 7 then NoTurn else
        Turn([EventItem(Field(rest, 1, 1), Field(rest, 2, 1), Field(rest, 3, 4))], 7)
    case 3 => Turn([], 8)
    case 4 =>
      if |rest| < 6 then NoTurn else
        Turn([EndItem(Field(rest, 1, 4), Field(rest, 5, 1))], 6 + 24 * 8)
    case 5 =>
      if |rest| < 8 then NoTurn else
        Turn([RejoinedItem(Field(rest, 1, 1), Field(rest, 2, 2), Field(rest, 4, 4))], 8)
    case _ => NoTurn
  }

  /** What the loop yields for the rest of the data. */
  function ReadAll(rest: Bytes): Read
    decreases |rest|
  {
    if rest == [] then Read([], false)
    else match ReadTurn(rest)
      case NoTurn => Read([], true)
      case Turn(items, size) => Behind(items, ReadAll(if size < |rest| then rest[size..] else []))
  }

  function ReadItems(data: Bytes): Read {
    if |data| < 8 || data[..8] != MAGIC || |data| < FRONT then Read([], true)
    else
      var header := HeaderItem(Field(data, 8, 4), Field(data, 12, 8), Field(data, 20, 1), Field(data, 21, 4));
      Behind([header], ReadAll(data[FRONT..]))
  }

  /** These items, and then what is read. */
  function Behind(items: seq<Item>, r: Read): Read {
    r.(items := items + r.items)
  }

  lemma BehindBehind(items: seq<Item>, more: seq<Item>, r: Read)
    ensures Behind(items, Behind(more, r)) == Behind(items + more, r)
  {
    assert items + (more + r.items) == (items + more) + r.items;
  }

  method Records(data: Bytes) returns (r: Read)
    ensures r == ReadItems(data)
  {
    if |data| < 8 || data[..8] != MAGIC || |data| < FRONT {
      return Read([], true);
    }
    var items := [HeaderItem(Field(data, 8, 4), Field(data, 12, 8), Field(data, 20, 1), Field(data, 21, 4))];
    r := ReadBody(data, FRONT, items);
  }

  method ReadBody(data: Bytes, from: nat, first: seq<Item>) returns (r: Read)
    requires from <= |data|
    ensures r == Behind(first, ReadAll(data[from..]))
  {
    var pos: nat, items := from, first;
    assert Rest(data, from) == data[from..];
    while pos < |data|
      invariant Behind(first, ReadAll(Rest(data, from))) == Behind(items, ReadAll(Rest(data, pos)))
    {
      var turn := ReadTurn(data[pos..]);
      TurnStep(data, pos, items, turn);
      if turn.NoTurn? {
        return Read(items, true);
      }
      pos, items := pos + turn.size, items + turn.items;
    }
    r := Read(items, false);
  }

  ghost function Rest(data: Bytes, pos: nat): Bytes {
    if pos < |data| then data[pos..] else []
  }

  lemma TurnStep(data: Bytes, pos: nat, items: seq<Item>, turn: Turn)
    requires pos < |data| && turn == ReadTurn(data[pos..])
    ensures Behind(items, ReadAll(Rest(data, pos)))
         == if turn.NoTurn? then Read(items, true) else Behind(items + turn.items, ReadAll(Rest(data, pos + turn.size)))
  {
    assert items + [] == items;
    if turn.Turn? {
      var rest := data[pos..];
      assert (if turn.size < |rest| then rest[turn.size..] else []) == Rest(data, pos + turn.size);
      BehindBehind(items, turn.items, ReadAll(Rest(data, pos + turn.size)));
    }
  }

  // ----- reading an export

  /** What one record of a log says to this reader; a GAP says nothing. */
  function View(r: Bytes, y: Layout): seq<Item>
    requires IsRecord(r, y) && r[0] != INPUT
  {
    match r[0]
    case 1 => [CommandItem(Field(r, 1, 1), Field(r, 2, 4), r[10..])]
    case 2 => [EventItem(Field(r, 1, 1), Field(r, 2, 1), Field(r, 3, 4))]
    case 4 => [EndItem(Field(r, 1, 4), Field(r, 5, 1))]
    case 5 => [RejoinedItem(Field(r, 1, 1), Field(r, 2, 2), Field(r, 4, 4))]
    case _ => []
  }

  ghost predicate AreViewed(rs: seq<Bytes>, y: Layout) {
    y.wide == 8 && forall k :: 0 <= k < |rs| ==> IsRecord(rs[k], y) && rs[k][0] != INPUT
  }

  ghost function Views(rs: seq<Bytes>, y: Layout): seq<Item>
    requires AreViewed(rs, y)
  {
    if rs == [] then [] else View(rs[0], y) + Views(rs[1..], y)
  }

  lemma FieldInside(rest: Bytes, r: Bytes, pos: nat, n: nat)
    requires r <= rest && pos + n <= |r|
    ensures Field(rest, pos, n) == Field(r, pos, n)
  {
    assert rest[pos..pos + n] == r[pos..pos + n];
  }

  /** One turn of the reader takes one record of the log. */
  lemma TurnIsView(rest: Bytes, r: Bytes, y: Layout)
    requires y.wide == 8 && IsRecord(r, y) && r[0] != INPUT && r <= rest
    ensures ReadTurn(rest) == Turn(View(r, y), |r|)
  {
    assert rest[0] == r[0];
    if r[0] == COMMAND {
      FieldInside(rest, r, 6, 4);
      FieldInside(rest, r, 1, 1);
      FieldInside(rest, r, 2, 4);
      assert Slice(rest, 10, |r|) == r[10..];
    } else {
      OtherFields(rest, r, y);
    }
  }

  lemma OtherFields(rest: Bytes, r: Bytes, y: Layout)
    requires y.wide == 8 && IsRecord(r, y) && r[0] != INPUT && r[0] != COMMAND && r <= rest
    ensures ReadTurn(rest) == Turn(View(r, y), |r|)
  {
    assert rest[0] == r[0];
    FieldInside(rest, r, 1, 1);
    FieldInside(rest, r, 2, 1);
    FieldInside(rest, r, 3, 4);
    FieldInside(rest, r, 1, 4);
    FieldInside(rest, r, 5, 1);
    if r[0] == REJOINED {
      FieldInside(rest, r, 2, 2);
      FieldInside(rest, r, 4, 4);
    }
  }

  lemma {:induction false} ReadsViews(rs: seq<Bytes>, y: Layout)
    requires AreViewed(rs, y)
    ensures ReadAll(Concat(rs)) == Read(Views(rs, y), false)
    decreases |rs|
  {
    if rs != [] {
      var r, more := rs[0], rs[1..];
      assert rs == [r] + more;
      ConcatFront(r, more);
      ReadsViews(more, y);
      TurnIsView(Concat(rs), r, y);
      assert Concat(rs)[|r|..] == Concat(more);
    }
  }

  /** The exports that this reader knows: version 1 or 2, and no INPUT record. */
  lemma ExportIsViewed(l: Log, id: nat)
    requires IsLog(l) && l.header.version < 4
    ensures AreViewed(Kept(l.records), LayoutOf(l.header))
  {
    assert Pow256(1) == 256;
    KeptAreKept(l.records, LayoutOf(l.header));
  }

  lemma ItemsOf(h: Header, rs: seq<Bytes>, y: Layout)
    requires IsHeader(h) && h.version < 4 && AreViewed(rs, y)
    ensures ReadItems(EncodeHeader(h) + Concat(rs))
              == Read([HeaderItem(h.version, h.id, h.mask, h.start)] + Views(rs, y), false)
  {
    var data := EncodeHeader(h) + Concat(rs);
    assert data[..FRONT] == EncodeHeader(h) && data[FRONT..] == Concat(rs);
    AllFieldsAre(data, h);
    ReadsViews(rs, y);
  }

  ghost function ExportedHeader(h: Header, id: nat): Header {
    Header(h.version, id, h.mask, h.start - h.start % DAY)
  }

  /** An anonymised log of version 1 or 2 is read as its header, and its records one by one. */
  lemma AnonymisedItems(l: Log, id: nat)
    requires IsLog(l) && l.header.version < 4 && id < Pow256(8)
    ensures AreViewed(Kept(l.records), LayoutOf(l.header))
    ensures var h := ExportedHeader(l.header, id);
            ReadItems(Encode(Anonymised(l, id)))
            == Read([HeaderItem(h.version, h.id, h.mask, h.start)] + Views(Kept(l.records), LayoutOf(l.header)), false)
  {
    hide ReadItems, AreViewed, Views, Kept;
    AnonymisedIsLog(l, id);
    ExportIsViewed(l, id);
    ItemsOf(ExportedHeader(l.header, id), Kept(l.records), LayoutOf(l.header));
  }

  lemma ExportBytes(data: Bytes, game: string, pseudo: string, l: Log)
    requires IsHex(pseudo) && |pseudo| == 16 && ReadLog(data, game) == Ok(l)
    ensures IsLog(l) && HexValue(pseudo) < Pow256(8)
    ensures Cleaned(data, pseudo, game).Ok?
    ensures Cleaned(data, pseudo, game).value.out == Encode(Anonymised(l, HexValue(pseudo)))
  {
    ReadLogIs(data, game, l);
    HexValueFits(pseudo);
    SixteenDigits();
  }

  /**
   The other reader agrees: an export of version 1 or 2 is read as its header under the pseudonym,
   and the kept records one by one.
   */
  lemma ExportIsReadBack(data: Bytes, game: string, pseudo: string, l: Log, out: Bytes)
    requires IsHex(pseudo) && |pseudo| == 16 && ReadLog(data, game) == Ok(l) && l.header.version < 4
    requires Cleaned(data, pseudo, game).Ok? && out == Cleaned(data, pseudo, game).value.out
    ensures AreViewed(Kept(l.records), LayoutOf(l.header))
    ensures var h := ExportedHeader(l.header, HexValue(pseudo));
            ReadItems(out) == Read([HeaderItem(h.version, h.id, h.mask, h.start)]
                                   + Views(Kept(l.records), LayoutOf(l.header)), false)
  {
    ExportBytes(data, game, pseudo, l);
    AnonymisedItems(l, HexValue(pseudo));
  }

  // ----- the commands among the items

  function Commands(items: seq<Item>): seq<Bytes> {
    if items == [] then []
    else if items[|items| - 1].CommandItem? then Commands(items[..|items| - 1]) + [items[|items| - 1].command]
    else Commands(items[..|items| - 1])
  }

  /** The commands of the kept records. */
  ghost function KeptCommands(rs: seq<Bytes>): seq<Bytes> {
    if rs == [] then []
    else
      var r := rs[|rs| - 1];
      if IsKept(r) && r[0] == COMMAND then KeptCommands(rs[..|rs| - 1]) + [r[10..]]
      else KeptCommands(rs[..|rs| - 1])
  }

  lemma {:induction false} CommandsApart(items: seq<Item>, more: seq<Item>)
    ensures Commands(items + more) == Commands(items) + Commands(more)
  {
    if more == [] {
      assert items + more == items;
    } else {
      var z := |more| - 1;
      CommandsApart(items, more[..z]);
      assert (items + more)[..|items + more| - 1] == items + more[..z];
    }
  }

  lemma {:induction false} ViewsBack(rs: seq<Bytes>, y: Layout)
    requires rs != [] && AreViewed(rs, y)
    ensures AreViewed(rs[..|rs| - 1], y)
    ensures Views(rs, y) == Views(rs[..|rs| - 1], y) + View(rs[|rs| - 1], y)
  {
    var z := |rs| - 1;
    assert forall k :: 0 <= k < z ==> rs[..z][k] == rs[k];
    if z > 0 {
      ViewsBack(rs[1..], y);
      assert rs[1..][..z - 1] == rs[..z][1..];
    }
  }

  lemma {:induction false} ViewedCommands(rs: seq<Bytes>, y: Layout)
    requires AreViewed(rs, y) && forall k :: 0 <= k < |rs| ==> IsKept(rs[k])
    ensures Commands(Views(rs, y)) == KeptCommands(rs)
  {
    if rs != [] {
      var z := |rs| - 1;
      ViewsBack(rs, y);
      assert forall k :: 0 <= k < z ==> rs[..z][k] == rs[k];
      ViewedCommands(rs[..z], y);
      CommandsApart(Views(rs[..z], y), View(rs[z], y));
      OneView(rs[z], y);
    }
  }

  lemma OneView(r: Bytes, y: Layout)
    requires IsRecord(r, y) && r[0] != INPUT
    ensures Commands(View(r, y)) == if r[0] == COMMAND then [r[10..]] else []
  {
    if View(r, y) != [] {
      assert Commands(View(r, y)[..0]) == [];
    }
  }

  lemma {:induction false} KeptCommandsOfKept(rs: seq<Bytes>)
    ensures KeptCommands(Kept(rs)) == KeptCommands(rs)
  {
    if rs != [] {
      var z := |rs| - 1;
      KeptCommandsOfKept(rs[..z]);
      if IsKept(rs[z]) {
        assert Kept(rs)[..|Kept(rs)| - 1] == Kept(rs[..z]);
      }
    }
  }

  lemma AllCommands(rs: seq<Bytes>, y: Layout, first: Item)
    requires AreRecords(rs, y) && AreViewed(Kept(rs), y) && first.HeaderItem?
    ensures Commands([first] + Views(Kept(rs), y)) == KeptCommands(rs)
  {
    KeptAreKept(rs, y);
    ViewedCommands(Kept(rs), y);
    KeptCommandsOfKept(rs);
    CommandsApart([first], Views(Kept(rs), y));
    assert Commands([first][..0]) == [];
  }

  /** Exactly the kept commands of the original log come back, in order. */
  lemma CommandsComeBack(data: Bytes, game: string, pseudo: string, l: Log, out: Bytes)
    requires IsHex(pseudo) && |pseudo| == 16 && ReadLog(data, game) == Ok(l) && l.header.version < 4
    requires Cleaned(data, pseudo, game).Ok? && out == Cleaned(data, pseudo, game).value.out
    ensures !ReadItems(out).raised && Commands(ReadItems(out).items) == KeptCommands(l.records)
  {
    ExportIsReadBack(data, game, pseudo, l, out);
    ExportBytes(data, game, pseudo, l);
    var h := ExportedHeader(l.header, HexValue(pseudo));
    AllCommands(l.records, LayoutOf(l.header), HeaderItem(h.version, h.id, h.mask, h.start));
  }
}
