/**
 `clean_log` of tools/net/replay_export.py: the relay log of a game with only its orders and frame
 bookkeeping, under a pseudonym and with its start time cut to the day.
 */
module RelayLog {
  import opened Bytes
  import opened GameCommands
  import opened Selections

  // ----- records

  const COMMAND: Byte := 1
  const EVENT: Byte := 2
  const GAP: Byte := 3
  const END: Byte := 4
  const REJOINED: Byte := 5
  const CANONICAL: Byte := 6
  const INPUT: Byte := 7

  /** What the layout of a log's records depends on: its version and the slots of an END record. */
  datatype Layout = Layout(version: nat, wide: nat)

  /** The bytes r are exactly one record. */
  predicate IsRecord(r: Bytes, y: Layout) {
    && r != []
    && (r[0] == COMMAND ==> |r| > 10 && |r| == 10 + Field(r, 6, 4))
    && (r[0] == EVENT ==> |r| == 7)
    && (r[0] == GAP ==> |r| == 8)
    && (r[0] == REJOINED ==> |r| == 8 && y.version >= 2)
    && (r[0] == END ==> |r| == 6 + y.wide * 24)
    && (r[0] == INPUT ==> |r| == 59 && y.version >= 4)
    && r[0] in {COMMAND, EVENT, GAP, END, REJOINED, INPUT}
  }

  /** A record that the cleaned log keeps. */
  ghost predicate IsKept(r: Bytes) {
    r != [] && r[0] != INPUT && (r[0] == COMMAND ==> |r| > 10 && IsCommand(r[10..]))
  }

  ghost predicate IsRefused(r: Bytes) {
    r != [] && r[0] == COMMAND && !IsKept(r)
  }

  ghost function Kept(rs: seq<Bytes>): seq<Bytes> {
    if rs == [] then []
    else if IsKept(rs[|rs| - 1]) then Kept(rs[..|rs| - 1]) + [rs[|rs| - 1]]
    else Kept(rs[..|rs| - 1])
  }

  /** COMMAND records among the kept ones, and refused ones. */
  ghost function CountKept(rs: seq<Bytes>): nat {
    if rs == [] then 0
    else CountKept(rs[..|rs| - 1]) + (if IsKept(rs[|rs| - 1]) && rs[|rs| - 1][0] == COMMAND then 1 else 0)
  }

  ghost function CountRefused(rs: seq<Bytes>): nat {
    if rs == [] then 0
    else CountRefused(rs[..|rs| - 1]) + (if IsRefused(rs[|rs| - 1]) then 1 else 0)
  }

  function Concat(rs: seq<Bytes>): Bytes {
    if rs == [] then [] else Concat(rs[..|rs| - 1]) + rs[|rs| - 1]
  }

  ghost predicate AreRecords(rs: seq<Bytes>, y: Layout) {
    forall k :: 0 <= k < |rs| ==> IsRecord(rs[k], y)
  }

  /** The END record is there, and nowhere but at the end. */
  ghost predicate EndsOnce(rs: seq<Bytes>) {
    rs != [] && forall k :: 0 <= k < |rs| && rs[k] != [] ==> (rs[k][0] == END <==> k == |rs| - 1)
  }

  ghost predicate NoEnd(rs: seq<Bytes>) {
    forall k :: 0 <= k < |rs| && rs[k] != [] ==> rs[k][0] != END
  }

  ghost predicate IsBody(rs: seq<Bytes>, y: Layout) {
    AreRecords(rs, y) && EndsOnce(rs)
  }

  // ----- header

  const MAGIC: Bytes := [0x4F, 0x42, 0x46, 0x4D, 0x45, 0x52, 0x4C, 0x47]  // OBFMERLG

  datatype Header = Header(version: nat, id: nat, mask: nat, start: nat)

  function MaskSize(version: nat): nat {
    if version == 4 then 2 else 1
  }

  predicate IsHeader(h: Header) {
    && h.version in {1, 2, 4}
    && h.id < Pow256(8)
    && h.mask < Pow256(MaskSize(h.version))
    && h.start < Pow256(4)
  }

  function HeaderSize(version: nat): nat {
    24 + MaskSize(version)
  }

  function EncodeHeader(h: Header): (s: Bytes)
    ensures |s| == HeaderSize(h.version)
  {
    MAGIC + Pack(h.version, 4) + Pack(h.id, 8) + Pack(h.mask, MaskSize(h.version)) + Pack(h.start, 4)
  }

  function LayoutOf(h: Header): Layout {
    Layout(h.version, if h.mask > 0xFF then 16 else 8)
  }

  // ----- logs

  datatype Log = Log(header: Header, records: seq<Bytes>)

  ghost predicate IsLog(l: Log) {
    IsHeader(l.header) && IsBody(l.records, LayoutOf(l.header))
  }

  function Encode(l: Log): Bytes {
    EncodeHeader(l.header) + Concat(l.records)
  }

  const DAY: nat := 86400

  /** The exported log: the pseudonym for the game's id, the day for its start, the kept records. */
  ghost function Anonymised(l: Log, id: nat): Log {
    Log(l.header.(id := id, start := l.header.start - l.header.start % DAY), Kept(l.records))
  }

  // ----- reading a log

  datatype Reason =
    | NotARelayLog | CutHeader | UnknownVersion | OtherGame
    | AfterEnd | CutRecord | BadLength | EarlyRejoin | CanonicalGame | UnknownKind | NoEndRecord

  datatype Result<+T> = Skip(reason: Reason) | Ok(value: T)

  /** The size of the record that the rest of a log starts with. */
  function RecordSize(rest: Bytes, y: Layout): (r: Result<nat>)
    requires rest != []
    ensures r.Ok? ==> 0 < r.value <= |rest|
  {
    var kind := rest[0];
    if kind == COMMAND then
      if |rest| < 10 then Skip(CutRecord)
      else if Field(rest, 6, 4) < 1 || 10 + Field(rest, 6, 4) > |rest| then Skip(BadLength)
      else Ok(10 + Field(rest, 6, 4))
    else if kind in {EVENT, GAP, REJOINED} then
      if kind == REJOINED && y.version < 2 then Skip(EarlyRejoin)
      else Whole(if kind == EVENT then 7 else 8, rest)
    else if kind == END then Whole(6 + y.wide * 24, rest)
    else if kind == INPUT && y.version >= 4 then Whole(59, rest)
    else Skip(if kind == CANONICAL then CanonicalGame else UnknownKind)
  }

  function Whole(size: nat, rest: Bytes): Result<nat> {
    if size > |rest| then Skip(CutRecord) else Ok(size)
  }

  /** The record that the rest starts with is the only one that it starts with. */
  lemma RecordSizeIs(rest: Bytes, y: Layout, n: nat)
    requires rest != [] && 0 < n <= |rest|
    ensures RecordSize(rest, y) == Ok(n) <==> IsRecord(rest[..n], y)
  {
    var r := rest[..n];
    assert r[0] == rest[0];
    if n >= 10 {
      assert r[6..10] == rest[6..10];
    }
  }

  /** All records of the rest of a log, or why there are none. */
  function Parse(rest: Bytes, y: Layout): Result<seq<Bytes>>
    decreases |rest|
  {
    if rest == [] then Skip(NoEndRecord)
    else match RecordSize(rest, y)
      case Skip(reason) => Skip(reason)
      case Ok(n) =>
        if rest[0] == END then
          if n < |rest| then Skip(AfterEnd) else Ok([rest])
        else match Parse(rest[n..], y)
          case Skip(reason) => Skip(reason)
          case Ok(rs) => Ok([rest[..n]] + rs)
  }

  lemma {:induction false} ConcatFront(r: Bytes, rs: seq<Bytes>)
    ensures Concat([r] + rs) == r + Concat(rs)
  {
    if rs == [] {
      assert [r] + rs == [r];
      assert [r][..0] == [];
    } else {
      var z := |rs| - 1;
      ConcatFront(r, rs[..z]);
      assert ([r] + rs)[..z + 1] == [r] + rs[..z] && ([r] + rs)[z + 1] == rs[z];
      assert r + (Concat(rs[..z]) + rs[z]) == (r + Concat(rs[..z])) + rs[z];
    }
  }

  /** A log's body is read exactly as the records it was put together from. */
  lemma {:induction false} ParseIs(rest: Bytes, y: Layout, rs: seq<Bytes>)
    ensures Parse(rest, y) == Ok(rs) <==> IsBody(rs, y) && Concat(rs) == rest
    decreases |rest|
  {
    if Parse(rest, y) == Ok(rs) {
      ParsedIsBody(rest, y, rs);
    }
    if IsBody(rs, y) && Concat(rs) == rest {
      BodyIsParsed(rest, y, rs);
    }
  }

  lemma {:induction false} ParsedIsBody(rest: Bytes, y: Layout, rs: seq<Bytes>)
    requires Parse(rest, y) == Ok(rs)
    ensures IsBody(rs, y) && Concat(rs) == rest
    decreases |rest|
  {
    var n := RecordSize(rest, y).value;
    RecordSizeIs(rest, y, n);
    if rest[0] == END {
      assert rest[..n] == rest;
      LastRecord(rest, y);
    } else {
      var more := Parse(rest[n..], y).value;
      ParsedIsBody(rest[n..], y, more);
      RecordInFront(rest, n, more, y);
    }
  }

  lemma LastRecord(r: Bytes, y: Layout)
    requires IsRecord(r, y) && r[0] == END
    ensures IsBody([r], y) && Concat([r]) == r
  {
    assert Concat([r][..0]) == [];
  }

  lemma RecordInFront(rest: Bytes, n: nat, more: seq<Bytes>, y: Layout)
    requires 0 < n <= |rest| && rest[0] != END && IsRecord(rest[..n], y)
    requires IsBody(more, y) && Concat(more) == rest[n..]
    ensures IsBody([rest[..n]] + more, y) && Concat([rest[..n]] + more) == rest
  {
    FrontBody(rest[..n], more, y);
    ConcatFront(rest[..n], more);
    assert rest == rest[..n] + rest[n..];
  }

  lemma FrontBody(r: Bytes, more: seq<Bytes>, y: Layout)
    requires IsRecord(r, y) && r[0] != END
    ensures IsBody(more, y) ==> IsBody([r] + more, y)
    ensures more != [] && IsBody([r] + more, y) ==> IsBody(more, y)
  {
    var rs := [r] + more;
    assert forall k :: 0 <= k < |more| ==> rs[k + 1] == more[k];
  }

  lemma {:induction false} BodyIsParsed(rest: Bytes, y: Layout, rs: seq<Bytes>)
    requires IsBody(rs, y) && Concat(rs) == rest
    ensures Parse(rest, y) == Ok(rs)
    decreases |rest|, |rs|
  {
    var r, more := rs[0], rs[1..];
    assert rs == [r] + more;
    ConcatFront(r, more);
    assert IsRecord(r, y);
    assert rest[..|r|] == r && rest[|r|..] == Concat(more);
    RecordSizeIs(rest, y, |r|);
    if more != [] {
      assert r[0] != END;
      FrontBody(r, more, y);
      BodyIsParsed(rest[|r|..], y, more);
    } else {
      assert r[0] == END && rest == r && rs == [r];
    }
  }

  /** The header at the front of a log, for the game of that name. */
  function ReadHeader(data: Bytes, game: string): (r: Result<Header>)
    ensures r.Ok? ==> |data| >= HeaderSize(r.value.version)
  {
    if |data| < 25 || data[..8] != MAGIC then Skip(NotARelayLog)
    else
      var version := Field(data, 8, 4);
      if version == 4 && |data| < 26 then Skip(CutHeader)
      else if version !in {1, 2, 4} then Skip(UnknownVersion)
      else if Hex(Field(data, 12, 8), 16) != game then Skip(OtherGame)
      else
        var m := MaskSize(version);
        Ok(Header(version, Field(data, 12, 8), Field(data, 20, m), Field(data, 20 + m, 4)))
  }

  ghost predicate StartsWithHeader(data: Bytes, h: Header) {
    IsHeader(h) && |data| >= HeaderSize(h.version) && data[..HeaderSize(h.version)] == EncodeHeader(h)
  }

  /** Each field of an encoded header lies where the reader looks for it. */
  lemma HeaderFields(data: Bytes, h: Header)
    requires |data| >= HeaderSize(h.version)
    ensures data[..HeaderSize(h.version)] == EncodeHeader(h) <==>
              (var m := MaskSize(h.version);
              && data[..8] == MAGIC && data[8..12] == Pack(h.version, 4) && data[12..20] == Pack(h.id, 8)
              && data[20..20 + m] == Pack(h.mask, m) && data[20 + m..24 + m] == Pack(h.start, 4))
  {
    var m := MaskSize(h.version);
    var front := data[..24 + m];
    assert front == data[..8] + data[8..12] + data[12..20] + data[20..20 + m] + data[20 + m..24 + m];
    var e := EncodeHeader(h);
    assert e[..8] == MAGIC && e[8..12] == Pack(h.version, 4) && e[12..20] == Pack(h.id, 8);
    assert e[20..20 + m] == Pack(h.mask, m) && e[20 + m..24 + m] == Pack(h.start, 4);
    assert front[..8] == data[..8] && front[8..12] == data[8..12] && front[12..20] == data[12..20];
    assert front[20..20 + m] == data[20..20 + m] && front[20 + m..24 + m] == data[20 + m..24 + m];
  }

  lemma FieldIs(data: Bytes, pos: nat, n: nat, v: nat)
    requires pos + n <= |data|
    ensures Field(data, pos, n) == v <==> v < Pow256(n) && data[pos..pos + n] == Pack(v, n)
  {
    PackUnpack(data[pos..pos + n]);
    if v < Pow256(n) {
      UnpackPack(v, n);
    }
  }

  lemma AllFieldsAre(data: Bytes, h: Header)
    requires h.version in {1, 2, 4} && |data| >= HeaderSize(h.version)
    ensures StartsWithHeader(data, h) <==>
              (var m := MaskSize(h.version);
              && data[..8] == MAGIC && Field(data, 8, 4) == h.version && Field(data, 12, 8) == h.id
              && Field(data, 20, m) == h.mask && Field(data, 20 + m, 4) == h.start)
  {
    var m := MaskSize(h.version);
    HeaderFields(data, h);
    FieldIs(data, 8, 4, h.version);
    FieldIs(data, 12, 8, h.id);
    FieldIs(data, 20, m, h.mask);
    FieldIs(data, 20 + m, 4, h.start);
    assert Pow256(4) == 0x1_0000_0000;
  }

  /** A header is read exactly as it was written. */
  lemma ReadHeaderIs(data: Bytes, game: string, h: Header)
    ensures ReadHeader(data, game) == Ok(h) <==> StartsWithHeader(data, h) && Hex(h.id, 16) == game
  {
    if h.version in {1, 2, 4} && |data| >= HeaderSize(h.version) {
      AllFieldsAre(data, h);
    }
  }

  function ReadLog(data: Bytes, game: string): Result<Log> {
    match ReadHeader(data, game)
    case Skip(reason) => Skip(reason)
    case Ok(h) =>
      match Parse(data[HeaderSize(h.version)..], LayoutOf(h))
      case Skip(reason) => Skip(reason)
      case Ok(rs) => Ok(Log(h, rs))
  }

  /** A log is read exactly when the bytes are the encoding of that log of that game. */
  lemma ReadLogIs(data: Bytes, game: string, l: Log)
    ensures ReadLog(data, game) == Ok(l) <==> IsLog(l) && Encode(l) == data && Hex(l.header.id, 16) == game
  {
    ReadHeaderIs(data, game, l.header);
    var n := HeaderSize(l.header.version);
    if |data| >= n {
      ParseIs(data[n..], LayoutOf(l.header), l.records);
      assert data == data[..n] + data[n..];
      assert Encode(l)[..n] == EncodeHeader(l.header) && Encode(l)[n..] == Concat(l.records);
    }
  }

  // ----- cleaning

  datatype Export = Export(out: Bytes, kept: nat, dropped: nat)

  /** What a log with these records is exported as, behind its header. */
  ghost function ExportOf(front: Bytes, rs: seq<Bytes>): Export {
    Export(front + Concat(Kept(rs)), CountKept(rs), CountRefused(rs))
  }

  /** What reading the rest gives after the records so far. */
  ghost function Continued(done: seq<Bytes>, rest: Bytes, y: Layout, ended: bool): Result<seq<Bytes>> {
    if ended then
      if rest == [] then Ok(done) else Skip(AfterEnd)
    else match Parse(rest, y)
      case Skip(reason) => Skip(reason)
      case Ok(rs) => Ok(done + rs)
  }

  lemma ContinuedStep(done: seq<Bytes>, rest: Bytes, y: Layout, n: nat)
    requires rest != [] && RecordSize(rest, y) == Ok(n)
    ensures Continued(done, rest, y, false) == Continued(done + [rest[..n]], rest[n..], y, rest[0] == END)
  {
    if rest[0] == END {
      assert rest[..n] == rest || n < |rest|;
    } else if Parse(rest[n..], y).Ok? {
      var rs := Parse(rest[n..], y).value;
      assert done + ([rest[..n]] + rs) == (done + [rest[..n]]) + rs;
    }
  }

  lemma ContinuedFromStart(body: Bytes, y: Layout)
    ensures Continued([], body, y, false) == Parse(body, y)
  {
    if Parse(body, y).Ok? {
      assert [] + Parse(body, y).value == Parse(body, y).value;
    }
  }

  lemma ExportStep(front: Bytes, done: seq<Bytes>, r: Bytes)
    requires r != []
    ensures var e, f := ExportOf(front, done), ExportOf(front, done + [r]);
            && f.out == (if IsKept(r) then e.out + r else e.out)
            && f.kept == (if IsKept(r) && r[0] == COMMAND then e.kept + 1 else e.kept)
            && f.dropped == (if IsRefused(r) then e.dropped + 1 else e.dropped)
  {
    var rs := done + [r];
    assert rs[..|rs| - 1] == done && rs[|rs| - 1] == r;
    if IsKept(r) {
      var ks := Kept(done) + [r];
      assert ks[..|ks| - 1] == Kept(done);
      assert front + Concat(ks) == (front + Concat(Kept(done))) + r;
    }
  }

  /** The size of the record at pos, as the loop finds it. */
  method SizeAt(data: Bytes, pos: nat, y: Layout) returns (r: Result<nat>)
    requires pos < |data|
    ensures r == RecordSize(data[pos..], y)
  {
    ghost var rest := data[pos..];
    var kind := data[pos];
    if kind == COMMAND {
      if pos + 10 > |data| {
        return Skip(CutRecord);
      }
      var length := Field(data, pos + 6, 4);
      assert data[pos + 6..pos + 10] == rest[6..10];
      var end := pos + 10 + length;
      if length < 1 || end > |data| {
        return Skip(BadLength);
      }
      return Ok(end - pos);
    } else if kind in {EVENT, GAP, REJOINED} {
      var size := if kind == EVENT then 7 else 8;
      if kind == REJOINED && y.version < 2 {
        return Skip(EarlyRejoin);
      }
      if pos + size > |data| {
        return Skip(CutRecord);
      }
      return Ok(size);
    } else if kind == END {
      var size := 6 + y.wide * 24;
      if pos + size > |data| {
        return Skip(CutRecord);
      }
      return Ok(size);
    } else if kind == INPUT && y.version >= 4 {
      if pos + 3 + 7 * 8 > |data| {
        return Skip(CutRecord);
      }
      return Ok(59);
    } else if kind == CANONICAL {
      return Skip(CanonicalGame);
    } else {
      return Skip(UnknownKind);
    }
  }

  /** Whether the loop copies the record. */
  method Copies(record: Bytes, y: Layout) returns (copies: bool)
    requires IsRecord(record, y)
    ensures copies <==> IsKept(record)
  {
    if record[0] == COMMAND {
      copies := record[10] in KEEP_COMMANDS;
      if copies {
        copies := CommandOk(record[10..]);
      } else if IsCommand(record[10..]) {
        CommandIsKept(record[10..]);
      }
    } else {
      copies := record[0] != INPUT;
    }
  }

  method CleanBody(data: Bytes, from: nat, y: Layout, front: Bytes) returns (r: Result<Export>)
    requires from <= |data|
    ensures r == match Parse(data[from..], y)
                 case Skip(reason) => Skip(reason)
                 case Ok(rs) => Ok(ExportOf(front, rs))
  {
    var pos: nat := from;
    var out: Bytes := front;
    var kept: nat, dropped: nat := 0, 0;
    var ended := false;
    ghost var done: seq<Bytes> := [];
    ContinuedFromStart(data[from..], y);
    while pos < |data|
      invariant from <= pos <= |data|
      invariant Parse(data[from..], y) == Continued(done, data[pos..], y, ended)
      invariant Export(out, kept, dropped) == ExportOf(front, done)
    {
      if ended {
        return Skip(AfterEnd);
      }
      var kind := data[pos];
      var size := SizeAt(data, pos, y);
      if size.Skip? {
        return Skip(size.reason);
      }
      var end: nat := pos + size.value;
      var record := data[pos..end];
      StepAt(data, pos, end, y, done, front);
      var copies := Copies(record, y);
      if copies {
        out := out + record;
        kept := if kind == COMMAND then kept + 1 else kept;
      } else if kind == COMMAND {
        dropped := dropped + 1;
      }
      ended := kind == END;
      pos := end;
      done := done + [record];
    }
    r := if ended then Ok(Export(out, kept, dropped)) else Skip(NoEndRecord);
  }

  lemma StepAt(data: Bytes, pos: nat, end: nat, y: Layout, done: seq<Bytes>, front: Bytes)
    requires pos < end <= |data| && RecordSize(data[pos..], y) == Ok(end - pos)
    ensures IsRecord(data[pos..end], y) && data[pos..end][0] == data[pos]
    ensures Continued(done, data[pos..], y, false)
         == Continued(done + [data[pos..end]], data[end..], y, data[pos] == END)
    ensures var r, e, f := data[pos..end], ExportOf(front, done), ExportOf(front, done + [data[pos..end]]);
            && f.out == (if IsKept(r) then e.out + r else e.out)
            && f.kept == (if IsKept(r) && r[0] == COMMAND then e.kept + 1 else e.kept)
            && f.dropped == (if IsRefused(r) then e.dropped + 1 else e.dropped)
  {
    var rest := data[pos..];
    assert rest[..end - pos] == data[pos..end] && rest[end - pos..] == data[end..];
    RecordSizeIs(rest, y, end - pos);
    ContinuedStep(done, rest, y, end - pos);
    ExportStep(front, done, data[pos..end]);
  }

  /** The checks in front of the loop. */
  method CheckHeader(data: Bytes, game: string) returns (r: Result<Header>)
    ensures r == ReadHeader(data, game)
  {
    if |data| < 25 || data[..8] != MAGIC {
      return Skip(NotARelayLog);
    }
    var version := Field(data, 8, 4);
    if version == 4 && |data| < 26 {
      return Skip(CutHeader);
    }
    if version !in {1, 2, 4} {
      return Skip(UnknownVersion);
    }
    if Hex(Field(data, 12, 8), 16) != game {
      return Skip(OtherGame);
    }
    var m := MaskSize(version);
    r := Ok(Header(version, Field(data, 12, 8), Field(data, 20, m), Field(data, 20 + m, 4)));
  }

  /** What `clean_log` gives for these bytes: nothing but the log of this game is exported. */
  ghost function Cleaned(data: Bytes, pseudo: string, game: string): Result<Export> {
    match ReadLog(data, game)
    case Skip(reason) => Skip(reason)
    case Ok(l) =>
      Ok(Export(Encode(Anonymised(l, HexValue(pseudo))), CountKept(l.records), CountRefused(l.records)))
  }

  /** The export in terms of its header and of the records behind it. */
  lemma CleanedAs(data: Bytes, pseudo: string, game: string, h: Header)
    requires ReadHeader(data, game) == Ok(h)
    ensures Cleaned(data, pseudo, game) ==
              match Parse(data[HeaderSize(h.version)..], LayoutOf(h))
              case Skip(reason) => Skip(reason)
              case Ok(rs) =>
                Ok(ExportOf(EncodeHeader(Header(h.version, HexValue(pseudo), h.mask, h.start - h.start % DAY)), rs))
  {
  }

  /** The new header, and the loop behind it. */
  method CleanRecords(data: Bytes, h: Header, id: nat) returns (r: Result<Export>)
    requires |data| >= HeaderSize(h.version)
    ensures r == match Parse(data[HeaderSize(h.version)..], LayoutOf(h))
                 case Skip(reason) => Skip(reason)
                 case Ok(rs) => Ok(ExportOf(EncodeHeader(Header(h.version, id, h.mask, h.start - h.start % DAY)), rs))
  {
    var wide := if h.mask > 0xFF then 16 else 8;
    var front := EncodeHeader(Header(h.version, id, h.mask, h.start - h.start % DAY));
    r := CleanBody(data, HeaderSize(h.version), Layout(h.version, wide), front);
  }

  method CleanLog(data: Bytes, pseudo: string, game: string) returns (r: Result<Export>)
    requires IsHex(pseudo) && |pseudo| == 16
    ensures r == Cleaned(data, pseudo, game)
  {
    var h := CheckHeader(data, game);
    if h.Skip? {
      return Skip(h.reason);
    }
    CleanedAs(data, pseudo, game, h.value);
    r := CleanRecords(data, h.value, HexValue(pseudo));
  }

  // ----- what the export keeps

  lemma {:induction false} KeptAreKept(rs: seq<Bytes>, y: Layout)
    requires AreRecords(rs, y)
    ensures AreRecords(Kept(rs), y) && forall k :: 0 <= k < |Kept(rs)| ==> IsKept(Kept(rs)[k])
  {
    if rs != [] {
      var z := |rs| - 1;
      assert forall k :: 0 <= k < z ==> rs[..z][k] == rs[k];
      KeptAreKept(rs[..z], y);
    }
  }

  /** Kept records are left as they are, none of them counted as refused. */
  lemma {:induction false} KeptStays(rs: seq<Bytes>)
    requires forall k :: 0 <= k < |rs| ==> IsKept(rs[k])
    ensures Kept(rs) == rs && CountRefused(rs) == 0
  {
    if rs != [] {
      var z := |rs| - 1;
      assert forall k :: 0 <= k < z ==> rs[..z][k] == rs[k];
      KeptStays(rs[..z]);
      assert rs == rs[..z] + [rs[z]];
    }
  }

  lemma {:induction false} KeptCounts(rs: seq<Bytes>)
    ensures CountKept(Kept(rs)) == CountKept(rs)
  {
    if rs != [] {
      var z := |rs| - 1;
      KeptCounts(rs[..z]);
      if IsKept(rs[z]) {
        assert Kept(rs)[..|Kept(rs)| - 1] == Kept(rs[..z]);
      }
    }
  }

  lemma {:induction false} KeptNoEnd(rs: seq<Bytes>)
    requires NoEnd(rs)
    ensures NoEnd(Kept(rs))
  {
    if rs != [] {
      var z := |rs| - 1;
      assert forall k :: 0 <= k < z ==> rs[..z][k] == rs[k];
      KeptNoEnd(rs[..z]);
    }
  }

  /** The kept records of a body are a body: END is kept, and stays last. */
  lemma KeptIsBody(rs: seq<Bytes>, y: Layout)
    requires IsBody(rs, y)
    ensures IsBody(Kept(rs), y)
  {
    var z := |rs| - 1;
    KeptAreKept(rs, y);
    assert IsRecord(rs[z], y) && IsKept(rs[z]);
    assert NoEnd(rs[..z]) by { assert forall k :: 0 <= k < z ==> rs[..z][k] == rs[k]; }
    KeptNoEnd(rs[..z]);
  }

  lemma DayIsEarlier(start: nat)
    ensures (start - start % DAY) % DAY == 0 && start - start % DAY <= start
  {
  }

  /** The exported log is a log, of the same layout. */
  lemma AnonymisedIsLog(l: Log, id: nat)
    requires IsLog(l) && id < Pow256(8)
    ensures IsLog(Anonymised(l, id)) && LayoutOf(Anonymised(l, id).header) == LayoutOf(l.header)
  {
    KeptIsBody(l.records, LayoutOf(l.header));
    DayIsEarlier(l.header.start);
  }

  lemma AnonymisedTwice(l: Log, id: nat)
    requires IsLog(l)
    ensures Anonymised(Anonymised(l, id), id) == Anonymised(l, id)
  {
    KeptAreKept(l.records, LayoutOf(l.header));
    KeptStays(Kept(l.records));
    DayIsEarlier(l.header.start);
  }

  /** What the reader finds in the export. */
  lemma ExportIsRead(data: Bytes, game: string, l: Log, pseudo: string)
    requires IsHex(pseudo) && |pseudo| == 16 && ReadLog(data, game) == Ok(l)
    ensures var a := Anonymised(l, HexValue(pseudo));
            IsLog(l) && IsLog(a) && ReadLog(Encode(a), pseudo) == Ok(a)
  {
    ReadLogIs(data, game, l);
    HexOfValue(pseudo);
    HexValueFits(pseudo);
    SixteenDigits();
    var id := HexValue(pseudo);
    AnonymisedIsLog(l, id);
    ReadLogIs(Encode(Anonymised(l, id)), pseudo, Anonymised(l, id));
  }

  /**
   Cleaning a cleaned log under its pseudonym gives the same bytes, with the same number of kept
   commands and none dropped.
   */
  lemma CleanTwice(data: Bytes, pseudo: string, game: string)
    requires IsHex(pseudo) && |pseudo| == 16 && Cleaned(data, pseudo, game).Ok?
    ensures var e := Cleaned(data, pseudo, game).value;
            Cleaned(e.out, pseudo, pseudo) == Ok(Export(e.out, e.kept, 0))
  {
    var l := ReadLog(data, game).value;
    ExportIsRead(data, game, l, pseudo);
    AnonymisedTwice(l, HexValue(pseudo));
    KeptCounts(l.records);
    KeptAreKept(l.records, LayoutOf(l.header));
    KeptStays(Kept(l.records));
  }

  /** The same version, players and day, and the same kept records. */
  ghost predicate AlikeButDropped(l: Log, m: Log) {
    && l.header.version == m.header.version && l.header.mask == m.header.mask
    && l.header.start / DAY == m.header.start / DAY && Kept(l.records) == Kept(m.records)
  }

  lemma AnonymisedAlike(l: Log, m: Log, id: nat)
    ensures Anonymised(l, id) == Anonymised(m, id) <==> AlikeButDropped(l, m)
  {
    assert l.header.start - l.header.start % DAY == l.header.start / DAY * DAY;
    assert m.header.start - m.header.start % DAY == m.header.start / DAY * DAY;
  }

  /**
   Under one pseudonym two logs of any two games are exported as the same bytes exactly when they have
   the same version, players, day and kept records: nothing else is left of a log.
   */
  lemma ExportHidesDropped(l: Log, m: Log, pseudo: string)
    requires IsLog(l) && IsLog(m) && IsHex(pseudo) && |pseudo| == 16
    ensures var c := Cleaned(Encode(l), pseudo, Hex(l.header.id, 16));
            var d := Cleaned(Encode(m), pseudo, Hex(m.header.id, 16));
            c.Ok? && d.Ok? && (c.value.out == d.value.out <==> AlikeButDropped(l, m))
  {
    ReadLogIs(Encode(l), Hex(l.header.id, 16), l);
    ReadLogIs(Encode(m), Hex(m.header.id, 16), m);
    ExportIsRead(Encode(l), Hex(l.header.id, 16), l, pseudo);
    ExportIsRead(Encode(m), Hex(m.header.id, 16), m, pseudo);
    AnonymisedAlike(l, m, HexValue(pseudo));
  }

  /** What an export may hold: any record but an INPUT, and a COMMAND only if it is a command of the game. */
  ghost predicate IsExportable(r: Bytes) {
    r != [] && r[0] != 7 && (r[0] == 1 ==> |r| > 10 && IsCommand(r[10..]))
  }

  lemma {:induction false} KeptSelects(rs: seq<Bytes>)
    ensures IsSelection(rs, Kept(rs), (r: Bytes) => IsExportable(r))
  {
    hide SelectsAt;
    var wanted := (r: Bytes) => IsExportable(r);
    if rs == [] {
      SelectsNone(wanted);
    } else {
      var z := |rs| - 1;
      KeptSelects(rs[..z]);
      var at :| SelectsAt(rs[..z], Kept(rs[..z]), wanted, at);
      if IsKept(rs[z]) {
        SelectsNext(rs, Kept(rs[..z]), wanted, at);
      } else {
        SelectsSkip(rs, Kept(rs[..z]), wanted, at);
      }
    }
  }

  /**
   Read back, an export holds exactly the exportable records of the log, in their order: every COMMAND in it
   is a command of the game, and every such COMMAND of the log is in it.
   */
  lemma ExportSelects(data: Bytes, game: string, pseudo: string, l: Log)
    requires IsHex(pseudo) && |pseudo| == 16 && ReadLog(data, game) == Ok(l)
    ensures Cleaned(data, pseudo, game).Ok?
    ensures var back := ReadLog(Cleaned(data, pseudo, game).value.out, pseudo);
            back.Ok? && IsSelection(l.records, back.value.records, (r: Bytes) => IsExportable(r))
  {
    ExportIsRead(data, game, l, pseudo);
    KeptSelects(l.records);
  }

  // ----- where the bytes of a log are

  /** The fields of a header: a 25-byte one, or in version 4 a 26-byte one with a mask of two bytes. */
  lemma HeaderLayout(h: Header)
    requires IsHeader(h)
    ensures var s, wide := EncodeHeader(h), h.version == 4;
            && |s| == (if wide then 26 else 25)
            && s[..8] == [79, 66, 70, 77, 69, 82, 76, 71]
            && Field(s, 8, 4) == h.version && Field(s, 12, 8) == h.id
            && (s[20] as int) + (if wide then 256 * (s[21] as int) else 0) == h.mask
            && Field(s, if wide then 22 else 21, 4) == h.start
  {
    var s := EncodeHeader(h);
    assert s[..|s|] == s;
    AllFieldsAre(s, h);
    MaskBytes(s[20..20 + MaskSize(h.version)]);
  }

  lemma MaskBytes(s: Bytes)
    requires 1 <= |s| <= 2
    ensures Unpack(s) == (s[0] as int) + (if |s| == 2 then 256 * (s[1] as int) else 0)
  {
    assert Unpack(s) == s[0] + 256 * Unpack(s[1..]);
    if |s| == 2 {
      assert s[1..] == [s[1]] && s[1..][1..] == [];
    }
  }

  /** The kinds of records and their sizes; END has counts for 8 slots, or for 16 when the mask names a high one. */
  lemma RecordSizes(r: Bytes, h: Header)
    requires IsRecord(r, LayoutOf(h))
    ensures match r[0]
            case 1 => |r| >= 11 && |r| == 10 + Field(r, 6, 4)
            case 2 => |r| == 7
            case 3 => |r| == 8
            case 4 => |r| == 6 + 24 * (if h.mask < 0x100 then 8 else 16)
            case 5 => |r| == 8 && h.version >= 2
            case 7 => |r| == 59 && h.version >= 4
            case _ => false
  {
  }

  /** Why no record can be read off the front of the rest. */
  predicate IsBad(rest: Bytes, h: Header, reason: Reason)
    requires rest != []
  {
    match rest[0]
    case 1 =>
      if |rest| < 10 then reason == CutRecord
      else (Field(rest, 6, 4) == 0 || 10 + Field(rest, 6, 4) > |rest|) && reason == BadLength
    case 2 => |rest| < 7 && reason == CutRecord
    case 3 => |rest| < 8 && reason == CutRecord
    case 4 => |rest| < 6 + 24 * (if h.mask < 0x100 then 8 else 16) && reason == CutRecord
    case 5 => if h.version == 1 then reason == EarlyRejoin else |rest| < 8 && reason == CutRecord
    case 6 => reason == CanonicalGame
    case 7 => if h.version < 4 then reason == UnknownKind else |rest| < 59 && reason == CutRecord
    case _ => reason == UnknownKind
  }

  lemma BadIs(rest: Bytes, h: Header, reason: Reason)
    requires IsHeader(h) && rest != []
    ensures RecordSize(rest, LayoutOf(h)) == Skip(reason) <==> IsBad(rest, h, reason)
  {
  }

  /** A body is skipped for what comes behind the records that can be read. */
  lemma {:induction false} SkipsAtFirstBad(h: Header, rs: seq<Bytes>, rest: Bytes, reason: Reason)
    requires IsHeader(h) && AreRecords(rs, LayoutOf(h)) && NoEnd(rs)
    requires if rest == [] then reason == NoEndRecord else IsBad(rest, h, reason)
    ensures Parse(Concat(rs) + rest, LayoutOf(h)) == Skip(reason)
    decreases |rs|
  {
    var y := LayoutOf(h);
    if rs == [] {
      assert [] + rest == rest;
      if rest != [] {
        BadIs(rest, h, reason);
      }
    } else {
      var r, more := rs[0], rs[1..];
      assert rs == [r] + more;
      ConcatFront(r, more);
      var all := Concat(rs) + rest;
      assert all == r + (Concat(more) + rest);
      assert all[..|r|] == r && all[|r|..] == Concat(more) + rest;
      SkipsAtFirstBad(h, more, rest, reason);
      RecordSizeIs(all, y, |r|);
      assert r[0] != END;
    }
  }

  /** And for anything behind its END record. */
  lemma {:induction false} SkipsAfterEnd(h: Header, rs: seq<Bytes>, rest: Bytes)
    requires IsHeader(h) && IsBody(rs, LayoutOf(h)) && rest != []
    ensures Parse(Concat(rs) + rest, LayoutOf(h)) == Skip(AfterEnd)
    decreases |rs|
  {
    var y := LayoutOf(h);
    var r, more := rs[0], rs[1..];
    assert rs == [r] + more;
    ConcatFront(r, more);
    var all := Concat(rs) + rest;
    assert all == r + (Concat(more) + rest);
    assert all[..|r|] == r && all[|r|..] == Concat(more) + rest;
    RecordSizeIs(all, y, |r|);
    assert IsRecord(r, y);
    if |rs| > 1 {
      assert r[0] != END;
      forall k | 0 <= k < |more| && more[k] != [] ensures more[k][0] == END <==> k == |more| - 1 {
        assert more[k] == rs[k + 1];
      }
      SkipsAfterEnd(h, more, rest);
    } else {
      assert r[0] == END;
    }
  }
}
