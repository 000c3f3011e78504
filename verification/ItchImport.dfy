/** The MySQL importer: reading a binary file, batching it, and merging per-file symbol statistics
    into the symbols table. */
module ItchImport {
  import opened Bytes
  import opened ItchCodec
  import opened ItchFile
  import opened ItchRoundTrip
  import opened Sequences

  /** One row of itch_messages: (timestamp_ns, type, symbol, raw); an absent symbol is NULL. */
  datatype Row = Row(timestamp: int, messageType: Byte, symbol: Option<seq<Byte>>, raw: seq<Byte>)

  /** Both loops give up once their count exceeds this. */
  const READ_LIMIT: nat := 100000000

  // ----- parse_itch_message -----

  /** Types whose bytes 24 to 31 are taken as the symbol. */
  const SYMBOL_TYPES: set<Byte> := {82, 65, 69, 88, 68, 85, 80, 81}

  /** decode('ascii', errors='ignore'). */
  function DropNonAscii(b: seq<Byte>): seq<Byte> {
    if b == [] then [] else (if b[0] < 128 then [b[0]] else []) + DropNonAscii(b[1..])
  }

  function SymbolOf(p: seq<Byte>): Option<seq<Byte>> {
    if |p| >= 32 && p[0] in SYMBOL_TYPES then
      var symbol := Strip(DropNonAscii(p[24..32]));
      if symbol == [] then None else Some(symbol)
    else None
  }

  /** Payloads of fewer than two bytes are skipped. */
  predicate IsMessage(p: seq<Byte>) {
    |p| >= 2
  }

  function RowAt(p: seq<Byte>, timestamp: int): Row
    requires IsMessage(p)
  {
    Row(timestamp, p[0], SymbolOf(p), p)
  }

  // ----- _read_binary_itch -----

  /** The rows read from the payloads: skipping non-messages, one microsecond apart from `base`, and
      at most one more than the limit. */
  function RowsOf(ps: seq<seq<Byte>>, base: int): seq<Row> {
    if ps == [] then []
    else
      var n := |ps| - 1;
      var rows := RowsOf(ps[..n], base);
      if |rows| > READ_LIMIT || !IsMessage(ps[n]) then rows
      else rows + [RowAt(ps[n], base + |rows| * 1000)]
  }

  lemma {:induction false} RowsOfBasics(ps: seq<seq<Byte>>, base: int)
    ensures |RowsOf(ps, base)| <= 100000001
    ensures forall i :: 0 <= i < |RowsOf(ps, base)| ==> RowsOf(ps, base)[i].timestamp == base + i * 1000
  {
    if ps != [] {
      RowsOfBasics(ps[..|ps| - 1], base);
    }
  }

  // ----- what a row holds -----

  lemma {:induction false} DropNonAsciiMembers(b: seq<Byte>, c: Byte)
    ensures c in DropNonAscii(b) <==> c in b && c < 128
  {
    if b != [] {
      DropNonAsciiMembers(b[1..], c);
      assert b == [b[0]] + b[1..];
    }
  }

  lemma {:induction false} DropNonAsciiKeeps(b: seq<Byte>)
    requires IsAscii(b)
    ensures DropNonAscii(b) == b
  {
    if b != [] {
      DropNonAsciiKeeps(b[1..]);
      assert b == [b[0]] + b[1..];
    }
  }

  ghost predicate IsVisible(c: Byte) {
    c < 128 && c !in {32, 9, 10, 11, 12, 13, 28, 29, 30, 31}
  }

  lemma StripIsEmptyIff(b: seq<Byte>)
    ensures Strip(b) == [] <==> forall c :: c in b ==> c in {32, 9, 10, 11, 12, 13, 28, 29, 30, 31}
  {
    var a, c := StripMeaning(b);
    assert forall x :: x in b <==> x in a || x in Strip(b) || x in c;
    if Strip(b) != [] {
      assert Strip(b)[0] in b;
    }
  }

  /** A row has a symbol if and only if its payload has at least 32 bytes, is of one of eight types and
      has a visible ASCII byte among bytes 24 to 31; if these are all ASCII, the symbol is their
      stripped text. */
  lemma SymbolColumn(p: seq<Byte>)
    ensures SymbolOf(p).Some? <==>
              |p| >= 32 && p[0] as char in "RAEXDUPQ" && exists i :: 24 <= i < 32 && IsVisible(p[i])
    ensures SymbolOf(p).Some? && IsAscii(p[24..32]) ==> SymbolOf(p).value == Strip(p[24..32])
  {
    hide Strip, DropNonAscii, IsVisible;
    if |p| >= 32 {
      var b := p[24..32];
      VisibleIff(b);
      assert forall i :: 24 <= i < 32 ==> p[i] == b[i - 24];
      if j :| 0 <= j < |b| && IsVisible(b[j]) {
        assert IsVisible(p[j + 24]);
      }
      if IsAscii(b) {
        DropNonAsciiKeeps(b);
      }
    }
  }

  lemma VisibleIff(b: seq<Byte>)
    ensures Strip(DropNonAscii(b)) != [] <==> exists j :: 0 <= j < |b| && IsVisible(b[j])
  {
    hide Strip, DropNonAscii;
    var d := DropNonAscii(b);
    StripIsEmptyIff(d);
    if Strip(d) != [] {
      var c :| c in d && c !in {32, 9, 10, 11, 12, 13, 28, 29, 30, 31};
      DropNonAsciiMembers(b, c);
      var j :| 0 <= j < |b| && b[j] == c;
      assert IsVisible(b[j]);
    }
    if j :| 0 <= j < |b| && IsVisible(b[j]) {
      DropNonAsciiMembers(b, b[j]);
    }
  }

  /** The row of an encoded message: its type, its payload, the symbol of an add order or a trade, and
      none for the types that are shorter than 32 bytes. */
  lemma RowOfMessage(f: Fields, tracking: nat, filler: seq<Byte>, time: int)
    requires WellFormed(f) && |filler| == 13 && Fits(tracking, 2)
    ensures var p := Encode(f, tracking, filler);
            && IsMessage(p)
            && RowAt(p, time).timestamp == time && RowAt(p, time).messageType == MessageType(f) && RowAt(p, time).raw == p
            && (f.AddOrder? ==> RowAt(p, time).symbol == if f.symbol == [] then None else Some(f.symbol))
            && (f.Trade? ==> RowAt(p, time).symbol == if f.symbol == [] then None else Some(f.symbol))
            && (f.SystemEvent? || f.OrderExecuted? || f.OrderCancel? || f.OrderDelete? ==>
                  RowAt(p, time).symbol == None)
  {
    hide Encode, ReadInt, DropNonAscii, Strip;
    var p := Encode(f, tracking, filler);
    EncodedType(f, tracking, filler);
    if f.AddOrder? || f.Trade? {
      DecodeInvertsEncode(f, tracking, filler);
      DropNonAsciiKeeps(p[24..32]);
    }
  }

  /** The payloads that are messages: at least two bytes. */
  function Messages(ps: seq<seq<Byte>>): seq<seq<Byte>> {
    if ps == [] then []
    else Messages(ps[..|ps| - 1]) + (if |ps[|ps| - 1]| >= 2 then [ps[|ps| - 1]] else [])
  }

  /** Conservation: the rows are the messages in order, one row each, up to a hundred million and one. */
  lemma {:induction false} RowsAreMessages(ps: seq<seq<Byte>>, base: int)
    ensures var rows, ms := RowsOf(ps, base), Messages(ps);
            && |rows| == (if |ms| <= 100000001 then |ms| else 100000001)
            && forall i :: 0 <= i < |rows| ==>
                 && rows[i].raw == ms[i] && |ms[i]| >= 2 && rows[i].messageType == ms[i][0]
                 && rows[i].symbol == SymbolOf(ms[i])
                 && rows[i].timestamp == base + i * 1000
  {
    hide SymbolOf;
    if ps != [] {
      RowsAreMessages(ps[..|ps| - 1], base);
    }
  }

  lemma RowsOfNext(ps: seq<seq<Byte>>, k: nat, base: int)
    requires k < |ps|
    ensures var rows := RowsOf(ps[..k], base);
            RowsOf(ps[..k + 1], base)
            == if |rows| > READ_LIMIT || !IsMessage(ps[k]) then rows else rows + [RowAt(ps[k], base + |rows| * 1000)]
  {
    assert ps[..k + 1][..k] == ps[..k];
  }

  /** Once over the limit, further payloads add nothing. */
  lemma {:induction false} RowsOfFull(ps: seq<seq<Byte>>, k: nat, base: int)
    requires k <= |ps| && |RowsOf(ps[..k], base)| > READ_LIMIT
    ensures RowsOf(ps, base) == RowsOf(ps[..k], base)
    decreases |ps| - k
  {
    if k < |ps| {
      RowsOfNext(ps, k, base);
      RowsOfFull(ps, k + 1, base);
    } else {
      assert ps[..k] == ps;
    }
  }

  method ReadBinary(data: seq<Byte>, base: int) returns (rows: seq<Row>)
    ensures rows == RowsOf(Frames(data), base)
  {
    hide Frames, RowsOf, RowAt;
    ghost var frames := Frames(data);
    ghost var k := 0;
    var rest := data;
    rows := [];
    NoRows(base);
    assert frames[..0] == [];
    while true
      invariant k <= |frames| && frames[k..] == Frames(rest)
      invariant rows == RowsOf(frames[..k], base) && |rows| <= READ_LIMIT
      decreases |rest|
    {
      var payload, rest' := ReadFrame(rest);
      if payload.None? {
        assert frames[..k] == frames;
        return;
      }
      assert frames[k] == frames[k..][0] && frames[k + 1..] == frames[k..][1..];
      RowsOfNext(frames, k, base);
      rest, k := rest', k + 1;
      if IsMessage(payload.value) {
        rows := rows + [RowAt(payload.value, base + |rows| * 1000)];
        if |rows| > READ_LIMIT {
          RowsOfFull(frames, k, base);
          return;
        }
      }
    }
  }

  lemma NoRows(base: int)
    ensures RowsOf([], base) == []
  {
  }

  // ----- symbol statistics -----

  /** A row of the symbols table, and an entry of one file's statistics. */
  datatype Stat = Stat(count: nat, first: int, last: int)

  /** The timestamps of the rows with symbol `s`, in order: the reference the statistics are compared
      with. */
  function TimesOf(rows: seq<Row>, s: seq<Byte>): seq<int> {
    if rows == [] then []
    else
      var n := |rows| - 1;
      TimesOf(rows[..n], s) + (if rows[n].symbol == Some(s) then [rows[n].timestamp] else [])
  }

  ghost predicate IsLeast(x: int, xs: seq<int>) {
    x in xs && forall y :: y in xs ==> x <= y
  }

  ghost predicate IsGreatest(x: int, xs: seq<int>) {
    x in xs && forall y :: y in xs ==> y <= x
  }

  /** The table says, for each symbol with a message, how many there are and their least and greatest
      timestamp, and has no other row. */
  ghost predicate Agrees(table: map<seq<Byte>, Stat>, rows: seq<Row>) {
    forall s ::
      && (s in table <==> TimesOf(rows, s) != [])
      && (s in table ==>
            && table[s].count == |TimesOf(rows, s)|
            && IsLeast(table[s].first, TimesOf(rows, s))
            && IsGreatest(table[s].last, TimesOf(rows, s)))
  }

  /** The in-memory update of one message: first and last occurrence, not least and greatest. */
  function Seen(stats: map<seq<Byte>, Stat>, row: Row): map<seq<Byte>, Stat> {
    match row.symbol
    case None => stats
    case Some(s) =>
      if s in stats then stats[s := Stat(stats[s].count + 1, stats[s].first, row.timestamp)]
      else stats[s := Stat(1, row.timestamp, row.timestamp)]
  }

  /** INSERT ... ON DUPLICATE KEY UPDATE: add the counts, LEAST, GREATEST. */
  function Combine(a: Stat, b: Stat): Stat {
    Stat(a.count + b.count,
         if a.first <= b.first then a.first else b.first,
         if a.last >= b.last then a.last else b.last)
  }

  function Upsert(table: map<seq<Byte>, Stat>, s: seq<Byte>, stat: Stat): map<seq<Byte>, Stat> {
    table[s := if s in table then Combine(table[s], stat) else stat]
  }

  /** The table after all upserts of one file, in whatever order they ran. */
  function Merged(table: map<seq<Byte>, Stat>, stats: map<seq<Byte>, Stat>): map<seq<Byte>, Stat> {
    map s | s in table.Keys + stats.Keys ::
      if s !in stats then table[s] else if s !in table then stats[s] else Combine(table[s], stats[s])
  }

  /** One file's statistics. */
  function FileStats(rows: seq<Row>): map<seq<Byte>, Stat> {
    if rows == [] then map[] else Seen(FileStats(rows[..|rows| - 1]), rows[|rows| - 1])
  }

  predicate Ascending(rows: seq<Row>) {
    forall i, j :: 0 <= i < j < |rows| ==> rows[i].timestamp <= rows[j].timestamp
  }

  lemma {:induction false} TimesAreRowTimes(rows: seq<Row>, s: seq<Byte>)
    ensures forall t :: t in TimesOf(rows, s) ==> exists i :: 0 <= i < |rows| && rows[i].timestamp == t
  {
    if rows != [] {
      var n := |rows| - 1;
      TimesAreRowTimes(rows[..n], s);
      forall t | t in TimesOf(rows, s) ensures exists i :: 0 <= i < |rows| && rows[i].timestamp == t {
        if t in TimesOf(rows[..n], s) {
          var i :| 0 <= i < n && rows[..n][i].timestamp == t;
          assert rows[i].timestamp == t;
        } else {
          assert rows[n].timestamp == t;
        }
      }
    }
  }

  lemma LeastSnoc(x: int, xs: seq<int>, y: int)
    requires IsLeast(x, xs) && x <= y
    ensures IsLeast(x, xs + [y])
  {
  }

  lemma GreatestSnoc(xs: seq<int>, y: int)
    requires forall x :: x in xs ==> x <= y
    ensures IsGreatest(y, xs + [y])
  {
    assert (xs + [y])[|xs|] == y;
  }

  /** The part of `Agrees` that is about one symbol. */
  ghost predicate AgreesOn(table: map<seq<Byte>, Stat>, s: seq<Byte>, times: seq<int>) {
    && (s in table <==> times != [])
    && (s in table ==>
          && table[s].count == |times|
          && IsLeast(table[s].first, times)
          && IsGreatest(table[s].last, times))
  }

  lemma SeenAgrees(stats: map<seq<Byte>, Stat>, rows: seq<Row>, row: Row, s: seq<Byte>)
    requires AgreesOn(stats, s, TimesOf(rows, s)) && Ascending(rows + [row])
    ensures AgreesOn(Seen(stats, row), s, TimesOf(rows + [row], s))
  {
    hide TimesOf, IsLeast, IsGreatest;
    var times := TimesOf(rows, s);
    TimesSnoc(rows, row, s);
    if row.symbol == Some(s) {
      TimesAreBefore(rows, row, s);
      GreatestSnoc(times, row.timestamp);
      if times != [] {
        LeastSnoc(stats[s].first, times, row.timestamp);
      } else {
        assert times + [row.timestamp] == [row.timestamp];
        OnlyOne(row.timestamp);
      }
    }
  }

  lemma TimesSnoc(rows: seq<Row>, row: Row, s: seq<Byte>)
    ensures TimesOf(rows + [row], s) == TimesOf(rows, s) + (if row.symbol == Some(s) then [row.timestamp] else [])
    ensures row.symbol != Some(s) ==> TimesOf(rows + [row], s) == TimesOf(rows, s)
  {
    assert (rows + [row])[..|rows|] == rows;
  }

  lemma TimesAreBefore(rows: seq<Row>, row: Row, s: seq<Byte>)
    requires Ascending(rows + [row])
    ensures forall t :: t in TimesOf(rows, s) ==> t <= row.timestamp
    ensures forall x :: IsLeast(x, TimesOf(rows, s)) ==> x <= row.timestamp
  {
    hide TimesOf;
    TimesAreRowTimes(rows, s);
    assert forall i :: 0 <= i < |rows| ==> (rows + [row])[i] == rows[i] && (rows + [row])[|rows|] == row;
  }

  lemma OnlyOne(x: int)
    ensures IsLeast(x, [x]) && IsGreatest(x, [x])
  {
  }

  /** Within one file timestamps ascend, so first and last occurrence are least and greatest. */
  lemma {:induction false} FileStatsAgree(rows: seq<Row>)
    requires Ascending(rows)
    ensures Agrees(FileStats(rows), rows)
  {
    if rows != [] {
      var n := |rows| - 1;
      FileStatsAgree(rows[..n]);
      assert rows == rows[..n] + [rows[n]];
      forall s ensures AgreesOn(FileStats(rows), s, TimesOf(rows, s)) {
        SeenAgrees(FileStats(rows[..n]), rows[..n], rows[n], s);
      }
    }
  }

  lemma {:induction false} TimesOfAppend(a: seq<Row>, b: seq<Row>, s: seq<Byte>)
    ensures TimesOf(a + b, s) == TimesOf(a, s) + TimesOf(b, s)
  {
    if b == [] {
      assert a + b == a;
    } else {
      var n := |b| - 1;
      assert (a + b)[..|a| + n] == a + b[..n];
      TimesOfAppend(a, b[..n], s);
    }
  }

  /** Merging statistics is a homomorphism of concatenation: tables that agree with two lists of
      rows merge into one that agrees with the two lists together. */
  lemma MergeAgrees(t: map<seq<Byte>, Stat>, a: seq<Row>, u: map<seq<Byte>, Stat>, b: seq<Row>)
    requires Agrees(t, a) && Agrees(u, b)
    ensures Agrees(Merged(t, u), a + b)
  {
    forall s ensures AgreesOn(Merged(t, u), s, TimesOf(a + b, s)) {
      TimesOfAppend(a, b, s);
      assert AgreesOn(t, s, TimesOf(a, s)) && AgreesOn(u, s, TimesOf(b, s));
    }
  }

  /** Rows of one file are stamped in ascending order. */
  lemma RowsAscend(ps: seq<seq<Byte>>, base: int)
    ensures Ascending(RowsOf(ps, base))
  {
    RowsOfBasics(ps, base);
  }

  function RowTypeCount(rows: seq<Row>, t: Byte): nat {
    if rows == [] then 0
    else RowTypeCount(rows[..|rows| - 1], t) + (if rows[|rows| - 1].messageType == t then 1 else 0)
  }

  // ----- the importer -----

  /** A full batch: one row when the batch size is not positive. */
  ghost predicate IsFull(b: seq<Row>, batchSize: int) {
    |b| == if batchSize >= 1 then batchSize else 1
  }

  ghost predicate FullBatches(batches: seq<seq<Row>>, batchSize: int) {
    forall i :: 0 <= i < |batches| ==> IsFull(batches[i], batchSize)
  }

  /** All batches of one file are full but the last, which is not empty and at most full. */
  ghost predicate BoundedBatches(batches: seq<seq<Row>>, batchSize: int) {
    && (forall i :: 0 <= i < |batches| - 1 ==> IsFull(batches[i], batchSize))
    && (batches != [] ==>
          var last := batches[|batches| - 1];
          IsFull(last, batchSize) || 1 <= |last| < batchSize)
  }

  /** What the loop over the rows keeps after `k` of them. */
  ghost predicate Progress(
    rows: seq<Row>, k: nat, batchSize: int, inserted: seq<seq<Row>>, batch: seq<Row>,
    types: map<Byte, nat>, stats: map<seq<Byte>, Stat>)
  {
    && k <= |rows|
    && Flatten(inserted) + batch == rows[..k]
    && BoundedBatches(inserted, batchSize)
    && (FullBatches(inserted, batchSize) || (batch == [] && k == |rows|))
    && (batch == [] || |batch| < batchSize)
    && (forall t :: CountOf(types, t) == RowTypeCount(rows[..k], t))
    && SumValues(types) == k
    && stats == FileStats(rows[..k])
  }

  lemma ProgressStarts(rows: seq<Row>, batchSize: int)
    ensures Progress(rows, 0, batchSize, [], [], map[], map[])
  {
  }

  /** Adding row `k` to the batch, and inserting the batch if it is full. */
  lemma ProgressContinues(
    rows: seq<Row>, k: nat, batchSize: int, inserted: seq<seq<Row>>, batch: seq<Row>,
    types: map<Byte, nat>, stats: map<seq<Byte>, Stat>)
    requires Progress(rows, k, batchSize, inserted, batch, types, stats) && k < |rows|
    ensures var t := rows[k].messageType;
            var types', stats', full := types[t := CountOf(types, t) + 1], Seen(stats, rows[k]), batch + [rows[k]];
            && (|full| >= batchSize ==> Progress(rows, k + 1, batchSize, inserted + [full], [], types', stats'))
            && (|full| < batchSize ==> Progress(rows, k + 1, batchSize, inserted, full, types', stats'))
  {
    hide Seen, FileStats, RowTypeCount, Flatten;
    var t, full := rows[k].messageType, batch + [rows[k]];
    assert rows[..k + 1] == rows[..k] + [rows[k]];
    SumValuesIncrement(types, t);
    FlattenSnoc(inserted, full);
    assert Flatten(inserted) + full == rows[..k + 1];
    assert Flatten(inserted) + full + [] == rows[..k + 1];
    StatsContinue(rows, k);
    var types' := types[t := CountOf(types, t) + 1];
    forall u ensures CountOf(types', u) == RowTypeCount(rows[..k + 1], u) {
      TypesContinue(rows, k, u);
    }
  }

  lemma StatsContinue(rows: seq<Row>, k: nat)
    requires k < |rows|
    ensures FileStats(rows[..k + 1]) == Seen(FileStats(rows[..k]), rows[k])
  {
    hide Seen;
    assert rows[..k + 1][..k] == rows[..k];
  }

  lemma TypesContinue(rows: seq<Row>, k: nat, u: Byte)
    requires k < |rows|
    ensures RowTypeCount(rows[..k + 1], u)
         == RowTypeCount(rows[..k], u) + (if rows[k].messageType == u then 1 else 0)
  {
    assert rows[..k + 1][..k] == rows[..k];
  }

  /** One upsert moves its symbol from the statistics still to do into the merged part. */
  lemma UpsertContinues(
    table: map<seq<Byte>, Stat>, stats: map<seq<Byte>, Stat>, todo: map<seq<Byte>, Stat>, s: seq<Byte>)
    requires s in todo && forall x :: x in todo ==> x in stats && todo[x] == stats[x]
    ensures Upsert(Merged(table, stats - todo.Keys), s, todo[s]) == Merged(table, stats - (todo - {s}).Keys)
  {
    var a, b := stats - todo.Keys, stats - (todo - {s}).Keys;
    assert b.Keys == a.Keys + {s};
    assert s !in a;
  }

  lemma MergedNothing(table: map<seq<Byte>, Stat>)
    ensures Merged(table, map[]) == table
  {
  }

  class Importer {
    var table: map<seq<Byte>, Stat>  // the symbols table
    var store: seq<seq<Row>>         // the batches inserted into itch_messages
    ghost var log: seq<Row>          // every row imported so far

    ghost predicate Valid()
      reads this
    {
      Agrees(table, log) && Flatten(store) == log
    }

    /** Freshly created tables. */
    constructor ()
      ensures Valid() && table == map[] && store == [] && log == []
    {
      table, store, log := map[], [], [];
    }

    /** The upserts of one file's statistics. */
    method UpdateSymbolStats(stats: map<seq<Byte>, Stat>)
      modifies this`table
      ensures table == Merged(old(table), stats)
    {
      hide Upsert, Merged;
      var todo := stats;
      assert stats - todo.Keys == map[];
      MergedNothing(table);
      while todo != map[]
        invariant forall s :: s in todo ==> s in stats && todo[s] == stats[s]
        invariant table == Merged(old(table), stats - todo.Keys)
        decreases |todo|
      {
        var s :| s in todo;
        UpsertContinues(old(table), stats, todo, s);
        table := Upsert(table, s, todo[s]);
        todo := todo - {s};
      }
      assert stats - todo.Keys == stats;
    }

    /** One import of a binary file whose first message is stamped `base`. The table agrees with all
        rows imported so far, and the inserted batches are those rows in order. */
    method ImportFile(data: seq<Byte>, base: int, batchSize: int) returns (total: nat, types: map<Byte, nat>)
      requires Valid()
      modifies this
      ensures Valid()
      ensures log == old(log) + RowsOf(Frames(data), base)
      ensures old(store) <= store && BoundedBatches(store[|old(store)|..], batchSize)
      ensures total == |RowsOf(Frames(data), base)| == SumValues(types)
      ensures forall t :: CountOf(types, t) == RowTypeCount(RowsOf(Frames(data), base), t)
    {
      hide Frames, RowsOf, Progress, Agrees, Merged, FileStats, Seen, Flatten;
      var rows := ReadBinary(data, base);
      RowsOfBasics(Frames(data), base);
      var inserted: seq<seq<Row>>, batch: seq<Row> := [], [];
      var stats: map<seq<Byte>, Stat> := map[];
      total, types := 0, map[];
      ProgressStarts(rows, batchSize);
      while total < |rows|
        invariant total <= |rows| <= READ_LIMIT + 1
        invariant Progress(rows, total, batchSize, inserted, batch, types, stats)
        modifies {}
      {
        ProgressContinues(rows, total, batchSize, inserted, batch, types, stats);
        var row := rows[total];
        batch := batch + [row];
        types := types[row.messageType := CountOf(types, row.messageType) + 1];
        stats := Seen(stats, row);
        total := total + 1;
        if |batch| >= batchSize {
          inserted := inserted + [batch];
          batch := [];
        }
        if total > READ_LIMIT {
          break;
        }
      }
      if batch != [] {
        LastBatch(rows, batchSize, inserted, batch, types, stats);
        inserted := inserted + [batch];
        batch := [];
      }
      ImportDone(rows, batchSize, inserted, types, stats);
      RowsAscend(Frames(data), base);
      FileStatsAgree(rows);
      MergeAgrees(table, log, stats, rows);
      FlattenAppend(store, inserted);
      UpdateSymbolStats(stats);
      store := store + inserted;
      log := log + rows;
    }
  }

  lemma LastBatch(
    rows: seq<Row>, batchSize: int, inserted: seq<seq<Row>>, batch: seq<Row>,
    types: map<Byte, nat>, stats: map<seq<Byte>, Stat>)
    requires Progress(rows, |rows|, batchSize, inserted, batch, types, stats) && batch != []
    ensures Progress(rows, |rows|, batchSize, inserted + [batch], [], types, stats)
  {
    FlattenSnoc(inserted, batch);
  }

  lemma ImportDone(
    rows: seq<Row>, batchSize: int, inserted: seq<seq<Row>>, types: map<Byte, nat>, stats: map<seq<Byte>, Stat>)
    requires Progress(rows, |rows|, batchSize, inserted, [], types, stats)
    ensures Flatten(inserted) == rows && BoundedBatches(inserted, batchSize)
    ensures SumValues(types) == |rows| && forall t :: CountOf(types, t) == RowTypeCount(rows, t)
    ensures stats == FileStats(rows)
  {
    assert rows[..|rows|] == rows;
  }
}
